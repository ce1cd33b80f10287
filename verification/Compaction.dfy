/** The two compaction layers that need no model call: shortening old tool results, and dropping read-only rounds. */
module Compaction {
  import opened Messages
  import opened Numerals

  const SNIPPABLE_TOOLS := {"file_read", "glob", "grep", "web_fetch", "web_search"}
  const READ_ONLY_TOOLS := {"file_read", "glob", "grep", "web_fetch", "web_search"}

  // ----- Estimated size

  /** `dump` gives the printed length of the blocks that have no text of their own. */
  function BlockChars(dump: Content -> nat, block: Content): nat {
    match block
    case Text(text) => |text|
    case ToolResult(_, output, _, _) => |output|
    case _ => dump(block)
  }

  function ContentChars(dump: Content -> nat, content: seq<Content>): nat {
    if |content| == 0 then 0
    else ContentChars(dump, content[..|content| - 1]) + BlockChars(dump, content[|content| - 1])
  }

  function TotalChars(dump: Content -> nat, messages: seq<Message>): nat {
    if |messages| == 0 then 0
    else TotalChars(dump, messages[..|messages| - 1]) + ContentChars(dump, messages[|messages| - 1].content)
  }

  lemma TotalCharsAppend(dump: Content -> nat, messages: seq<Message>, m: Message)
    ensures TotalChars(dump, messages + [m]) == TotalChars(dump, messages) + ContentChars(dump, m.content)
  {
    assert (messages + [m])[..|messages|] == messages;
  }

  lemma {:induction false} ContentOfBoth(dump: Content -> nat, a: seq<Content>, b: seq<Content>)
    ensures ContentChars(dump, a + b) == ContentChars(dump, a) + ContentChars(dump, b)
  {
    if |b| == 0 {
      assert a + b == a;
    } else {
      var n := |b| - 1;
      ContentOfBoth(dump, a, b[..n]);
      assert (a + b)[..|a| + n] == a + b[..n] && (a + b)[|a| + n] == b[n];
    }
  }

  /** What each kind of block counts for: a text and a result for their characters, images of a result for nothing. */
  lemma BlockCounts(dump: Content -> nat, text: string, id: string, isError: bool, images: seq<string>, other: Content)
    ensures ContentChars(dump, [Text(text)]) == |text|
    ensures ContentChars(dump, [ToolResult(id, text, isError, images)]) == |text|
    ensures other.Image? || other.ToolUse? ==> ContentChars(dump, [other]) == dump(other)
  {
    assert [Text(text)][..0] == [] && [ToolResult(id, text, isError, images)][..0] == [] && [other][..0] == [];
  }

  method EstimateContentChars(dump: Content -> nat, content: seq<Content>) returns (total: nat)
    ensures total == ContentChars(dump, content)
  {
    total := 0;
    for k := 0 to |content|
      invariant total == ContentChars(dump, content[..k])
    {
      assert content[..k + 1][..k] == content[..k];
      match content[k] {
        case Text(text) => total := total + |text|;
        case ToolResult(_, output, _, _) => total := total + |output|;
        case _ => total := total + dump(content[k]);
      }
    }
    assert content[..|content|] == content;
  }

  // ----- Layer 2: rounds of read-only calls

  predicate IsReadOnlyRound(m: Message) {
    && m.role == Assistant
    && Calls(m.content) != {}
    && (forall c :: c in Calls(m.content) ==> c.name in READ_ONLY_TOOLS)
  }

  /** The round that is being dropped at a message, if the message is dropped. */
  datatype Round = NoRound | Dropping(ids: set<string>)

  /** Only messages before `cutoff` are dropped; a result goes with its call while the chain of matches holds. */
  function RoundAt(messages: seq<Message>, cutoff: nat, i: nat): Round
    requires i < |messages|
    decreases i
  {
    var m := messages[i];
    if i >= cutoff then NoRound
    else if m.role == Tool then
      if i == 0 then NoRound
      else
        var r := RoundAt(messages, cutoff, i - 1);
        if r.Dropping? && ResultIds(m.content) * r.ids != {} then r else NoRound
    else if IsReadOnlyRound(m) then Dropping(CallIds(m.content))
    else NoRound
  }

  predicate Dropped(messages: seq<Message>, cutoff: nat, i: nat)
    requires i < |messages|
  {
    RoundAt(messages, cutoff, i).Dropping?
  }

  function DroppedCount(messages: seq<Message>, cutoff: nat, n: nat): nat
    requires n <= |messages|
  {
    if n == 0 then 0
    else DroppedCount(messages, cutoff, n - 1) + if Dropped(messages, cutoff, n - 1) then 1 else 0
  }

  function DroppedSet(messages: seq<Message>, cutoff: nat, n: nat): set<int>
    requires n <= |messages|
  {
    if n == 0 then {}
    else DroppedSet(messages, cutoff, n - 1) + if Dropped(messages, cutoff, n - 1) then {n - 1} else {}
  }

  function DroppedChars(dump: Content -> nat, messages: seq<Message>, cutoff: nat, n: nat): nat
    requires n <= |messages|
  {
    if n == 0 then 0
    else DroppedChars(dump, messages, cutoff, n - 1) +
         if Dropped(messages, cutoff, n - 1) then ContentChars(dump, messages[n - 1].content) else 0
  }

  function Marker(count: nat): seq<Message> {
    [UserText("[" + Decimal(count) + " read-only tool messages removed]"), AssistantText("Understood, continuing.")]
  }

  /** The first `n` messages without the dropped ones, the marker pair where the first of those was. */
  function Compacted(messages: seq<Message>, cutoff: nat, marker: seq<Message>, n: nat): seq<Message>
    requires n <= |messages|
  {
    if n == 0 then []
    else
      Compacted(messages, cutoff, marker, n - 1) +
      if !Dropped(messages, cutoff, n - 1) then [messages[n - 1]]
      else if DroppedCount(messages, cutoff, n - 1) == 0 then marker
      else []
  }

  /** What `micro_compact` returns for a history. */
  function MicroCompacted(messages: seq<Message>, protectedTail: nat): seq<Message> {
    var cutoff := Cutoff(messages, protectedTail);
    var count := DroppedCount(messages, cutoff, |messages|);
    if count == 0 then messages else Compacted(messages, cutoff, Marker(count), |messages|)
  }

  function Cutoff(messages: seq<Message>, protectedTail: nat): (c: nat)
    ensures c <= |messages|
  {
    if |messages| <= protectedTail then 0 else |messages| - protectedTail
  }

  /** The scan of `micro_compact`: which messages go, and how many characters they hold. */
  method FindReadOnlyRounds(dump: Content -> nat, messages: seq<Message>, cutoff: nat)
    returns (indicesToRemove: set<int>, totalFreed: nat)
    requires cutoff <= |messages|
    ensures forall k :: k in indicesToRemove <==> 0 <= k < cutoff && Dropped(messages, cutoff, k)
    ensures |indicesToRemove| == DroppedCount(messages, cutoff, cutoff)
    ensures totalFreed == DroppedChars(dump, messages, cutoff, cutoff)
    ensures indicesToRemove == {} ==> totalFreed == 0
  {
    indicesToRemove, totalFreed := {}, 0;
    // Everything before `marked` has been decided; results between `i` and `marked` belong to the last round.
    ghost var marked := 0;
    for i := 0 to cutoff
      invariant i <= marked <= cutoff
      invariant forall k :: i <= k < marked ==> messages[k].role == Tool
      invariant marked < cutoff && messages[marked].role == Tool ==> !Dropped(messages, cutoff, marked)
      invariant indicesToRemove == DroppedSet(messages, cutoff, marked)
      invariant totalFreed == DroppedChars(dump, messages, cutoff, marked)
    {
      var msg := messages[i];
      if marked == i && !IsReadOnlyRound(msg) {
        assert RoundAt(messages, cutoff, i) == NoRound;
        marked := i + 1;
        assert marked < cutoff && messages[marked].role == Tool ==> RoundAt(messages, cutoff, marked) == NoRound;
      }
      if msg.role != Assistant {
        continue;
      }
      var toolUses := Calls(msg.content);
      if toolUses == {} {
        continue;
      }
      if !forall c :: c in toolUses ==> c.name in READ_ONLY_TOOLS {
        continue;
      }
      var callIds := CallIds(msg.content);
      var chars := EstimateContentChars(dump, msg.content);
      indicesToRemove, totalFreed, marked :=
        MarkResults(dump, messages, cutoff, i, callIds, indicesToRemove + {i}, totalFreed + chars);
    }
    DroppedSetIsDropped(dump, messages, cutoff, cutoff);
  }

  /** A result that answers a call of the round before it is dropped with it, and no other one. */
  lemma MarkStep(dump: Content -> nat, messages: seq<Message>, cutoff: nat, j: nat, callIds: set<string>)
    requires 0 < j < cutoff <= |messages| && RoundAt(messages, cutoff, j - 1) == Dropping(callIds)
    requires messages[j].role == Tool
    ensures if ResultIds(messages[j].content) * callIds == {} then !Dropped(messages, cutoff, j)
            else
              && RoundAt(messages, cutoff, j) == Dropping(callIds)
              && DroppedSet(messages, cutoff, j + 1) == DroppedSet(messages, cutoff, j) + {j}
              && DroppedChars(dump, messages, cutoff, j + 1) ==
                 DroppedChars(dump, messages, cutoff, j) + ContentChars(dump, messages[j].content)
  {
  }

  /** The inner loop of that scan: the results that follow the call at `i` and match it. */
  method MarkResults(dump: Content -> nat, messages: seq<Message>, cutoff: nat, i: nat, callIds: set<string>,
                     indices: set<int>, freed: nat)
    returns (indicesToRemove: set<int>, totalFreed: nat, ghost marked: nat)
    requires i < cutoff <= |messages| && RoundAt(messages, cutoff, i) == Dropping(callIds)
    requires indices == DroppedSet(messages, cutoff, i + 1)
    requires freed == DroppedChars(dump, messages, cutoff, i + 1)
    ensures i < marked <= cutoff
    ensures forall k :: i < k < marked ==> messages[k].role == Tool
    ensures marked < cutoff && messages[marked].role == Tool ==> !Dropped(messages, cutoff, marked)
    ensures indicesToRemove == DroppedSet(messages, cutoff, marked)
    ensures totalFreed == DroppedChars(dump, messages, cutoff, marked)
  {
    indicesToRemove, totalFreed := indices, freed;
    var j := i + 1;
    while j < cutoff
      invariant i < j <= cutoff
      invariant forall k :: i < k < j ==> messages[k].role == Tool
      invariant RoundAt(messages, cutoff, j - 1) == Dropping(callIds)
      invariant indicesToRemove == DroppedSet(messages, cutoff, j)
      invariant totalFreed == DroppedChars(dump, messages, cutoff, j)
    {
      var resultMsg := messages[j];
      if resultMsg.role != Tool {
        break;
      }
      MarkStep(dump, messages, cutoff, j, callIds);
      var resultIds := ResultIds(resultMsg.content);
      if resultIds * callIds == {} {
        break;
      }
      indicesToRemove := indicesToRemove + {j};
      var chars := EstimateContentChars(dump, resultMsg.content);
      totalFreed := totalFreed + chars;
      j := j + 1;
    }
    marked := j;
  }

  method MicroCompact(dump: Content -> nat, messages: seq<Message>, protectedTail: nat)
    returns (newMessages: seq<Message>, totalFreed: nat)
    ensures newMessages == MicroCompacted(messages, protectedTail)
    ensures totalFreed == DroppedChars(dump, messages, Cutoff(messages, protectedTail), |messages|)
  {
    if |messages| <= protectedTail {
      NothingDropped(dump, messages, 0, |messages|);
      return messages, 0;
    }
    var cutoff := |messages| - protectedTail;
    var indicesToRemove;
    indicesToRemove, totalFreed := FindReadOnlyRounds(dump, messages, cutoff);
    DroppedBeforeCutoff(dump, messages, cutoff, |messages|);
    if indicesToRemove == {} {
      return messages, 0;
    }
    newMessages := [];
    var markerInserted := false;
    var marker := Marker(|indicesToRemove|);
    for i := 0 to |messages|
      invariant markerInserted <==> DroppedCount(messages, cutoff, i) > 0
      invariant newMessages == Compacted(messages, cutoff, marker, i)
    {
      if i in indicesToRemove {
        if !markerInserted {
          newMessages := newMessages + marker;
          markerInserted := true;
        }
        continue;
      }
      newMessages := newMessages + [messages[i]];
    }
  }

  lemma {:induction false} NothingDropped(dump: Content -> nat, messages: seq<Message>, cutoff: nat, n: nat)
    requires cutoff == 0 && n <= |messages|
    ensures DroppedCount(messages, cutoff, n) == 0 && DroppedChars(dump, messages, cutoff, n) == 0
  {
    if n > 0 {
      NothingDropped(dump, messages, cutoff, n - 1);
    }
  }

  lemma {:induction false} DroppedBeforeCutoff(dump: Content -> nat, messages: seq<Message>, cutoff: nat, n: nat)
    requires cutoff <= n <= |messages|
    ensures DroppedCount(messages, cutoff, n) == DroppedCount(messages, cutoff, cutoff)
    ensures DroppedChars(dump, messages, cutoff, n) == DroppedChars(dump, messages, cutoff, cutoff)
  {
    if n > cutoff {
      DroppedBeforeCutoff(dump, messages, cutoff, n - 1);
    }
  }

  lemma {:induction false} DroppedSetIsDropped(dump: Content -> nat, messages: seq<Message>, cutoff: nat, n: nat)
    requires n <= |messages|
    ensures forall k :: k in DroppedSet(messages, cutoff, n) <==> 0 <= k < n && Dropped(messages, cutoff, k)
    ensures |DroppedSet(messages, cutoff, n)| == DroppedCount(messages, cutoff, n)
    ensures DroppedSet(messages, cutoff, n) == {} ==> DroppedChars(dump, messages, cutoff, n) == 0
  {
    if n > 0 {
      DroppedSetIsDropped(dump, messages, cutoff, n - 1);
    }
  }
}
