/** Conversation items as the compaction pipeline sees them. Only the fields that the
    modelled code reads or writes are kept. */
module Conversation {
  import opened Wrappers

  datatype Part = Text(text: string) | Image(url: string)

  datatype ToolCall = ToolCall(id: string, name: string, arguments: string)

  /** Why the runtime, rather than a person, wrote a user message. */
  datatype SyntheticReason =
    | CompactionMeta
    | SystemReminder
    | ProjectInstructions
    | OtherReason(tag: string)

  datatype Item =
    | System(content: string)
    | User(parts: seq<Part>, synthetic: Option<SyntheticReason>)
    | Assistant(content: string, calls: seq<ToolCall>)
    | ToolResult(callId: string, content: string, images: seq<Part>)
    | BackendToolCall(summary: string)
    | Reasoning(thought: string)

  type History = seq<Item>

  function UserMessage(text: string): Item {
    User([Text(text)], None)
  }

  function UserMeta(text: string): Item {
    User([Text(text)], Some(CompactionMeta))
  }

  function ReminderMessage(text: string): Item {
    User([Text(text)], Some(SystemReminder))
  }

  function InstructionsMessage(text: string): Item {
    User([Text(text)], Some(ProjectInstructions))
  }

  function CallIds(calls: seq<ToolCall>): set<string> {
    if calls == [] then {} else {calls[0].id} + CallIds(calls[1..])
  }

  /** The calls that results right behind `item` may answer. */
  function CallsOf(item: Item): seq<ToolCall> {
    if item.Assistant? then item.calls else []
  }

  /** The ids that results right behind `item` may answer. */
  function OwnedIds(item: Item): set<string> {
    CallIds(CallsOf(item))
  }

  /** Index of the item that the run of results holding position `i` sits behind, or -1. */
  function RunOwner(h: History, i: int): (j: int)
    requires -1 <= i < |h|
    ensures -1 <= j <= i
    ensures j >= 0 ==> !h[j].ToolResult?
    ensures forall k :: j < k <= i ==> h[k].ToolResult?
  {
    if i == -1 || !h[i].ToolResult? then i else RunOwner(h, i - 1)
  }

  /** The provider's rule: each result sits in the contiguous run behind the assistant
      message that made its call. */
  ghost predicate Paired(h: History) {
    forall i :: 0 <= i < |h| && h[i].ToolResult? ==>
      var j := RunOwner(h, i);
      j >= 0 && h[i].callId in OwnedIds(h[j])
  }
}
