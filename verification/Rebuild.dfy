/** From the entries of a transcript back to the messages of a conversation. */
module Rebuild {
  import opened Messages
  import opened Conversations
  import opened Transcript
  import opened Options

  /** How cancelled tool calls are shown. */
  datatype Policy = Acknowledge | Hide | Verbatim

  /** The ids that have a result made up for a cancelled call. */
  function HiddenIds(chain: seq<Entry>): set<string> {
    if |chain| == 0 then {}
    else
      var p := chain[|chain| - 1].payload;
      HiddenIds(chain[..|chain| - 1]) + if p.ToolCall? && p.synthetic then {p.id} else {}
  }

  function Restored(blocks: seq<Content>, hidden: set<string>): seq<Content> {
    if |blocks| == 0 then []
    else
      var b := blocks[|blocks| - 1];
      Restored(blocks[..|blocks| - 1], hidden) +
      if b.Text? || (b.ToolUse? && b.id !in hidden) then [b] else []
  }

  const SUMMARY_HEADER := "[Previous conversation summary]\n"

  function CancelledOutput(timestamp: string, phase: Option<string>, output: string): string {
    var shown := if phase.None? || phase.value == "" then "unknown" else phase.value;
    "<cancelled at " + timestamp + " in phase=" + shown + "> " + output
  }

  /** The messages that one entry becomes: one, or none. */
  function FromEntry(entry: Entry, policy: Policy, hidden: set<string>): seq<Message> {
    match entry.payload
    case UserMessage(content) => [UserText(content)]
    case AssistantMessage(blocks) =>
      var content := Restored(blocks, hidden);
      if |content| == 0 then [] else [Message(Assistant, content)]
    case ToolCall(id, output, isError, synthetic, phase) =>
      if synthetic && policy.Hide? then []
      else if synthetic && policy.Verbatim?
              then [ResultMessage(id, CancelledOutput(entry.timestamp, phase, output), isError, [])]
      else [ResultMessage(id, output, isError, [])]
    case CompactBoundary(summary) => [UserText(SUMMARY_HEADER + summary)]
    case SessionMeta(key, value) => []
  }

  function FromEntries(chain: seq<Entry>, policy: Policy, hidden: set<string>): seq<Message> {
    if |chain| == 0 then []
    else FromEntries(chain[..|chain| - 1], policy, hidden) + FromEntry(chain[|chain| - 1], policy, hidden)
  }

  /** The history before unanswered calls are stripped. */
  function Rebuilt(chain: seq<Entry>, policy: Policy): seq<Message> {
    FromEntries(chain, policy, if policy.Hide? then HiddenIds(chain) else {})
  }

  /** The hidden ids are those that have a made-up result. */
  lemma {:induction false} HiddenIff(chain: seq<Entry>, id: string)
    ensures id in HiddenIds(chain) <==>
            exists k :: 0 <= k < |chain| && IsMadeUpResult(chain[k], id)
  {
    if |chain| > 0 {
      var n := |chain| - 1;
      var front := chain[..n];
      HiddenIff(front, id);
      if k :| 0 <= k < |chain| && IsMadeUpResult(chain[k], id) {
        assert k < n ==> front[k] == chain[k];
      }
      if k :| 0 <= k < |front| && IsMadeUpResult(front[k], id) {
        assert front[k] == chain[k];
      }
    }
  }

  predicate IsMadeUpResult(entry: Entry, id: string) {
    entry.payload.ToolCall? && entry.payload.synthetic && entry.payload.id == id
  }

  /**
   * Of the blocks of an assistant message the texts and the calls that are not hidden are restored, each in its place.
   */
  lemma RestoredIs(blocks: seq<Content>, last: Content, hidden: set<string>)
    ensures Restored(blocks + [last], hidden) ==
            match last
            case Text(_) => Restored(blocks, hidden) + [last]
            case ToolUse(id, _, _) => if id in hidden then Restored(blocks, hidden)
              else Restored(blocks, hidden) + [last]
            case _ => Restored(blocks, hidden)
    ensures Restored([], hidden) == []
  {
    assert (blocks + [last])[..|blocks|] == blocks;
    assert Restored(blocks, hidden) + [] == Restored(blocks, hidden);
  }

  /** A real result is shown as it is under every policy; a made-up one as it is, not at all, or with when and why. */
  lemma ResultUnderPolicies(entry: Entry, hidden: set<string>)
    requires entry.payload.ToolCall?
    ensures var p := entry.payload;
            var plain := [Message(Tool, [ToolResult(p.id, p.output, p.isError, [])])];
            var phase := if p.cancelPhase == None || p.cancelPhase == Some("") then "unknown" else p.cancelPhase.value;
            var note := "<cancelled at " + entry.timestamp + " in phase=" + phase + "> " + p.output;
            && FromEntry(entry, Acknowledge, hidden) == plain
            && FromEntry(entry, Hide, hidden) == (if p.synthetic then [] else plain)
            && FromEntry(entry, Verbatim, hidden) ==
               if p.synthetic then [Message(Tool, [ToolResult(p.id, note, p.isError, [])])] else plain
  {
  }

  method RestoreBlocks(blocks: seq<Content>, hidden: set<string>) returns (content: seq<Content>)
    ensures content == Restored(blocks, hidden)
  {
    content := [];
    for i := 0 to |blocks|
      invariant content == Restored(blocks[..i], hidden)
    {
      assert blocks[..i + 1][..i] == blocks[..i];
      match blocks[i] {
        case Text(_) =>
          content := content + [blocks[i]];
        case ToolUse(id, _, _) =>
          if id !in hidden {
            content := content + [blocks[i]];
          }
        case _ =>
      }
    }
    assert blocks[..|blocks|] == blocks;
  }

  method CollectHiddenIds(chain: seq<Entry>) returns (hidden: set<string>)
    ensures hidden == HiddenIds(chain)
  {
    hidden := {};
    for i := 0 to |chain|
      invariant hidden == HiddenIds(chain[..i])
    {
      assert chain[..i + 1][..i] == chain[..i];
      if chain[i].payload.ToolCall? && chain[i].payload.synthetic {
        hidden := hidden + {chain[i].payload.id};
      }
    }
    assert chain[..|chain|] == chain;
  }

  /** `rebuild_conversation`. */
  method RebuildConversation(chain: seq<Entry>, policy: Policy) returns (conversation: Conversation)
    ensures fresh(conversation) && conversation.Valid()
    ensures Values(conversation.messages) == Strip(Rebuilt(chain, policy))
  {
    var hidden: set<string> := {};
    if policy.Hide? {
      hidden := CollectHiddenIds(chain);
    }
    conversation := new Conversation();
    for i := 0 to |chain|
      invariant fresh(conversation) && conversation.Valid() && fresh(conversation.Objects())
      invariant Values(conversation.messages) == FromEntries(chain[..i], policy, hidden)
    {
      assert chain[..i + 1][..i] == chain[..i];
      AddEntry(conversation, chain[i], policy, hidden);
    }
    assert chain[..|chain|] == chain;
    var _ := conversation.StripOrphanedToolCalls();
  }

  method AddEntry(conversation: Conversation, entry: Entry, policy: Policy, hidden: set<string>)
    requires conversation.Valid()
    modifies conversation
    ensures conversation.Valid() && fresh(conversation.Objects() - old(conversation.Objects()))
    ensures Values(conversation.messages) == old(Values(conversation.messages)) + FromEntry(entry, policy, hidden)
  {
    match entry.payload {
      case UserMessage(content) =>
        conversation.Add(User, [Text(content)]);
      case AssistantMessage(blocks) =>
        var content := RestoreBlocks(blocks, hidden);
        if content != [] {
          conversation.Add(Assistant, content);
        }
      case ToolCall(id, output, isError, synthetic, phase) =>
        if synthetic && policy.Hide? {
          return;
        }
        if synthetic && policy.Verbatim? {
          conversation.Add(Tool, [ToolResult(id, CancelledOutput(entry.timestamp, phase, output), isError, [])]);
          return;
        }
        conversation.Add(Tool, [ToolResult(id, output, isError, [])]);
      case CompactBoundary(summary) =>
        conversation.Add(User, [Text(SUMMARY_HEADER + summary)]);
      case SessionMeta(_, _) =>
    }
  }
}
