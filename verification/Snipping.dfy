/** Layer 1 of compaction: old results of some tools are replaced by a placeholder that gives their length. */
module Snipping {
  import opened Messages
  import opened Numerals
  import opened Compaction
  import opened RoundPairing

  // ----- Which tool produced a result

  function BlockIndex(index: map<string, string>, block: Content): map<string, string> {
    if block.ToolUse? then index[block.id := block.name] else index
  }

  function ContentIndex(index: map<string, string>, content: seq<Content>): map<string, string> {
    if |content| == 0 then index
    else BlockIndex(ContentIndex(index, content[..|content| - 1]), content[|content| - 1])
  }

  /** The name under which each call id was last used. */
  function ToolIndex(messages: seq<Message>): map<string, string> {
    if |messages| == 0 then map[]
    else ContentIndex(ToolIndex(messages[..|messages| - 1]), messages[|messages| - 1].content)
  }

  method BuildToolNameIndex(messages: seq<Message>) returns (index: map<string, string>)
    ensures index == ToolIndex(messages)
  {
    index := map[];
    for i := 0 to |messages|
      invariant index == ToolIndex(messages[..i])
    {
      var content := messages[i].content;
      ghost var before := index;
      for k := 0 to |content|
        invariant index == ContentIndex(before, content[..k])
      {
        if content[k].ToolUse? {
          index := index[content[k].id := content[k].name];
        }
        assert content[..k + 1][..k] == content[..k];
      }
      assert content[..|content|] == content;
      assert messages[..i + 1][..i] == messages[..i];
    }
    assert messages[..|messages|] == messages;
  }

  predicate IsCallOf(block: Content, id: string) {
    block.ToolUse? && block.id == id
  }

  ghost predicate NoCallOf(content: seq<Content>, id: string) {
    forall k :: 0 <= k < |content| ==> !IsCallOf(content[k], id)
  }

  /** Block `k` of message `i` is a call whose id no later block of the history calls by. */
  ghost predicate IsLastCall(messages: seq<Message>, i: nat, k: nat) {
    && i < |messages| && k < |messages[i].content| && messages[i].content[k].ToolUse?
    && NoCallOf(messages[i].content[k + 1..], messages[i].content[k].id)
    && forall j :: i < j < |messages| ==> NoCallOf(messages[j].content, messages[i].content[k].id)
  }

  lemma {:induction false} NoCallLeavesIndex(start: map<string, string>, content: seq<Content>, id: string)
    requires NoCallOf(content, id)
    ensures id in ContentIndex(start, content) <==> id in start
    ensures id in start ==> ContentIndex(start, content)[id] == start[id]
  {
    if |content| > 0 {
      NoCallLeavesIndex(start, content[..|content| - 1], id);
    }
  }

  lemma {:induction false} LastCallOfContent(start: map<string, string>, content: seq<Content>, k: nat)
    requires k < |content| && content[k].ToolUse? && NoCallOf(content[k + 1..], content[k].id)
    ensures content[k].id in ContentIndex(start, content) &&
            ContentIndex(start, content)[content[k].id] == content[k].name
  {
    var init, last := content[..|content| - 1], content[|content| - 1];
    if k < |content| - 1 {
      assert content[k + 1..][|content| - 1 - (k + 1)] == last;
      assert init[k + 1..] == content[k + 1..][..|content| - 1 - (k + 1)];
      LastCallOfContent(start, init, k);
    }
  }

  /** A call id is in the index with the name of the last call that has it. */
  lemma {:induction false} LastCallNames(messages: seq<Message>, i: nat, k: nat)
    requires IsLastCall(messages, i, k)
    ensures var call := messages[i].content[k];
            call.id in ToolIndex(messages) && ToolIndex(messages)[call.id] == call.name
    decreases |messages|
  {
    var init, last := messages[..|messages| - 1], messages[|messages| - 1];
    if i == |messages| - 1 {
      LastCallOfContent(ToolIndex(init), last.content, k);
    } else {
      LastCallNames(init, i, k);
      NoCallLeavesIndex(ToolIndex(init), last.content, messages[i].content[k].id);
    }
  }

  /** And an id that no call has is not in it. */
  lemma {:induction false} NoCallNoName(messages: seq<Message>, id: string)
    requires forall i :: 0 <= i < |messages| ==> NoCallOf(messages[i].content, id)
    ensures id !in ToolIndex(messages)
  {
    if |messages| > 0 {
      var init, last := messages[..|messages| - 1], messages[|messages| - 1];
      NoCallNoName(init, id);
      NoCallLeavesIndex(ToolIndex(init), last.content, id);
    }
  }

  // ----- Shortening

  function Placeholder(length: nat): string {
    "[result truncated — " + Decimal(length) + " chars]"
  }

  predicate IsSnippable(index: map<string, string>, block: Content) {
    block.ToolResult? && block.id in index && index[block.id] in SNIPPABLE_TOOLS && |block.output| > 100
  }

  function SnipBlock(index: map<string, string>, block: Content): Content {
    if IsSnippable(index, block) then ToolResult(block.id, Placeholder(|block.output|), block.isError, []) else block
  }

  function SnipContent(index: map<string, string>, content: seq<Content>): (r: seq<Content>)
    ensures |r| == |content|
    ensures forall k :: 0 <= k < |content| ==> r[k] == SnipBlock(index, content[k])
  {
    if |content| == 0 then []
    else SnipContent(index, content[..|content| - 1]) + [SnipBlock(index, content[|content| - 1])]
  }

  function SnipMessage(index: map<string, string>, m: Message): Message {
    Message(m.role, SnipContent(index, m.content))
  }

  /** The first `cutoff` messages shortened, the others as they are. */
  function SnipBefore(index: map<string, string>, messages: seq<Message>, cutoff: nat): (r: seq<Message>)
    ensures |r| == |messages|
    ensures forall i :: 0 <= i < |messages| ==>
            r[i] == if i < cutoff then SnipMessage(index, messages[i]) else messages[i]
  {
    if |messages| == 0 then []
    else
      var last := messages[|messages| - 1];
      SnipBefore(index, messages[..|messages| - 1], cutoff) +
      [if |messages| - 1 < cutoff then SnipMessage(index, last) else last]
  }

  function Snipped(messages: seq<Message>, protectedTail: nat): seq<Message> {
    SnipBefore(ToolIndex(messages), messages, Cutoff(messages, protectedTail))
  }

  const PLACEHOLDER_FRAME := 27

  lemma PlaceholderLength(length: nat)
    ensures |Placeholder(length)| == PLACEHOLDER_FRAME + |Decimal(length)|
  {
  }

  /** The test for a positive saving in the code never fails: placeholders are shorter than what they replace. */
  lemma PlaceholderIsShorter(length: nat)
    requires length > 100
    ensures |Placeholder(length)| < length
  {
    PlaceholderLength(length);
    DecimalIsShort(length);
  }

  // ----- What is freed

  function FreedInBlock(index: map<string, string>, block: Content): int {
    if IsSnippable(index, block) then |block.output| - |Placeholder(|block.output|)| else 0
  }

  function FreedInContent(index: map<string, string>, content: seq<Content>): int {
    if |content| == 0 then 0
    else FreedInContent(index, content[..|content| - 1]) + FreedInBlock(index, content[|content| - 1])
  }

  function Freed(index: map<string, string>, messages: seq<Message>, cutoff: nat): int {
    if |messages| == 0 then 0
    else
      Freed(index, messages[..|messages| - 1], cutoff) +
      if |messages| - 1 < cutoff then FreedInContent(index, messages[|messages| - 1].content) else 0
  }

  method SnipToolResults(messages: seq<Message>, protectedTail: nat)
    returns (newMessages: seq<Message>, totalFreed: int)
    ensures newMessages == Snipped(messages, protectedTail)
    ensures totalFreed == Freed(ToolIndex(messages), messages, Cutoff(messages, protectedTail))
  {
    if |messages| <= protectedTail {
      NothingSnipped(ToolIndex(messages), messages);
      return messages, 0;
    }
    var toolIndex := BuildToolNameIndex(messages);
    newMessages, totalFreed := SnipBelow(toolIndex, messages, |messages| - protectedTail);
  }

  /** The outer loop of that method. */
  method SnipBelow(toolIndex: map<string, string>, messages: seq<Message>, cutoff: nat)
    returns (newMessages: seq<Message>, totalFreed: int)
    ensures newMessages == SnipBefore(toolIndex, messages, cutoff) && totalFreed == Freed(toolIndex, messages, cutoff)
  {
    newMessages, totalFreed := [], 0;
    for i := 0 to |messages|
      invariant |newMessages| == i
      invariant forall k :: 0 <= k < i ==>
                newMessages[k] == if k < cutoff then SnipMessage(toolIndex, messages[k]) else messages[k]
      invariant totalFreed == Freed(toolIndex, messages[..i], cutoff)
    {
      FreedPrefix(toolIndex, messages, i, cutoff);
      if i >= cutoff {
        newMessages := newMessages + [messages[i]];
        continue;
      }
      var newMessage, freedHere := SnipOneMessage(toolIndex, messages[i]);
      totalFreed := totalFreed + freedHere;
      newMessages := newMessages + [newMessage];
    }
    assert messages[..|messages|] == messages;
  }

  lemma FreedPrefix(index: map<string, string>, messages: seq<Message>, i: nat, cutoff: nat)
    requires i < |messages|
    ensures Freed(index, messages[..i + 1], cutoff) ==
            Freed(index, messages[..i], cutoff) + if i < cutoff then FreedInContent(index, messages[i].content) else 0
  {
    assert messages[..i + 1][..i] == messages[..i];
  }

  /** The inner loop. */
  method SnipOneMessage(toolIndex: map<string, string>, msg: Message) returns (newMessage: Message, freedHere: int)
    ensures newMessage == SnipMessage(toolIndex, msg) && freedHere == FreedInContent(toolIndex, msg.content)
  {
    var newContent: seq<Content> := [];
    freedHere := 0;
    for k := 0 to |msg.content|
      invariant newContent == SnipContent(toolIndex, msg.content[..k])
      invariant freedHere == FreedInContent(toolIndex, msg.content[..k])
    {
      var block := msg.content[k];
      assert msg.content[..k + 1][..k] == msg.content[..k];
      if block.ToolResult? && block.id in toolIndex && toolIndex[block.id] in SNIPPABLE_TOOLS && |block.output| > 100 {
        var oldLen := |block.output|;
        var placeholder := Placeholder(oldLen);
        var freed := oldLen - |placeholder|;
        PlaceholderIsShorter(oldLen);
        if freed > 0 {
          freedHere := freedHere + freed;
          newContent := newContent + [ToolResult(block.id, placeholder, block.isError, [])];
          continue;
        }
      }
      newContent := newContent + [block];
    }
    assert msg.content[..|msg.content|] == msg.content;
    newMessage := Message(msg.role, newContent);
  }

  lemma {:induction false} NothingSnipped(index: map<string, string>, messages: seq<Message>)
    ensures SnipBefore(index, messages, 0) == messages && Freed(index, messages, 0) == 0
  {
    if |messages| > 0 {
      NothingSnipped(index, messages[..|messages| - 1]);
    }
  }

  lemma {:induction false} FreedInContentIsDrop(dump: Content -> nat, index: map<string, string>, content: seq<Content>)
    ensures FreedInContent(index, content) ==
            ContentChars(dump, content) - ContentChars(dump, SnipContent(index, content))
    ensures FreedInContent(index, content) >= 0
  {
    if |content| > 0 {
      var init, block := content[..|content| - 1], content[|content| - 1];
      FreedInContentIsDrop(dump, index, init);
      var snipped := SnipContent(index, content);
      assert snipped[..|content| - 1] == SnipContent(index, init);
      if IsSnippable(index, block) {
        PlaceholderIsShorter(|block.output|);
      }
    }
  }

  /** The count that is returned is the drop in estimated characters, and never negative. */
  lemma {:induction false} FreedIsDrop(dump: Content -> nat, index: map<string, string>, messages: seq<Message>,
                                       cutoff: nat)
    ensures Freed(index, messages, cutoff) ==
            TotalChars(dump, messages) - TotalChars(dump, SnipBefore(index, messages, cutoff))
    ensures Freed(index, messages, cutoff) >= 0
  {
    if |messages| > 0 {
      var init, last := messages[..|messages| - 1], messages[|messages| - 1];
      FreedIsDrop(dump, index, init, cutoff);
      var snipped := SnipBefore(index, messages, cutoff);
      assert snipped[..|messages| - 1] == SnipBefore(index, init, cutoff);
      FreedInContentIsDrop(dump, index, last.content);
    }
  }

  // ----- What snipping keeps

  /** Two blocks that differ at most in a result's output and images. */
  predicate SameButOutput(a: Content, b: Content) {
    a == b || (a.ToolResult? && b.ToolResult? && a.id == b.id && a.isError == b.isError)
  }

  /** Count, roles, block order, call ids and error flags stay; so does every message of the protected tail. */
  lemma SnippingKeeps(messages: seq<Message>, protectedTail: nat)
    ensures var out, cutoff := Snipped(messages, protectedTail), Cutoff(messages, protectedTail);
            && |out| == |messages|
            && out[cutoff..] == messages[cutoff..]
            && forall i :: 0 <= i < |messages| ==>
                 && out[i].role == messages[i].role
                 && |out[i].content| == |messages[i].content|
                 && forall k :: 0 <= k < |messages[i].content| ==>
                    SameButOutput(messages[i].content[k], out[i].content[k])
  {
  }

  lemma {:induction false} SnippedContentIndex(index: map<string, string>, start: map<string, string>,
                                               content: seq<Content>)
    ensures ContentIndex(start, SnipContent(index, content)) == ContentIndex(start, content)
  {
    if |content| > 0 {
      SnippedContentIndex(index, start, content[..|content| - 1]);
      assert SnipContent(index, content)[..|content| - 1] == SnipContent(index, content[..|content| - 1]);
    }
  }

  lemma {:induction false} SnippedToolIndex(index: map<string, string>, messages: seq<Message>, cutoff: nat)
    ensures ToolIndex(SnipBefore(index, messages, cutoff)) == ToolIndex(messages)
  {
    if |messages| > 0 {
      var init, last := messages[..|messages| - 1], messages[|messages| - 1];
      SnippedToolIndex(index, init, cutoff);
      assert SnipBefore(index, messages, cutoff)[..|messages| - 1] == SnipBefore(index, init, cutoff);
      SnippedContentIndex(index, ToolIndex(init), last.content);
    }
  }

  // ----- Snipping twice

  /**
   * A shortened result is short enough to be left alone exactly when the original was below 10 to the 73 characters.
   */
  lemma SnipBlockTwice(index: map<string, string>, block: Content)
    ensures SnipBlock(index, SnipBlock(index, block)) == SnipBlock(index, block) <==>
            !(IsSnippable(index, block) && |block.output| >= Power10(73))
  {
    if IsSnippable(index, block) {
      var length := |block.output|;
      PlaceholderLength(length);
      DecimalLength(length, 73);
      if length >= Power10(73) {
        PlaceholderIsShorter(|Placeholder(length)|);
        assert |Placeholder(|Placeholder(length)|)| < |Placeholder(length)|;
      }
    }
  }

  /** Some result that snipping shortens has at least 10 to the 73 characters. */
  ghost predicate HasHugeResult(messages: seq<Message>, cutoff: nat) {
    exists i, k :: 0 <= i < |messages| && i < cutoff && 0 <= k < |messages[i].content| &&
      IsSnippable(ToolIndex(messages), messages[i].content[k]) && |messages[i].content[k].output| >= Power10(73)
  }

  /** A second snip changes nothing exactly when no shortened result was that long. */
  lemma SnippingTwice(messages: seq<Message>, protectedTail: nat)
    ensures Snipped(Snipped(messages, protectedTail), protectedTail) == Snipped(messages, protectedTail) <==>
            !HasHugeResult(messages, Cutoff(messages, protectedTail))
  {
    var index, cutoff := ToolIndex(messages), Cutoff(messages, protectedTail);
    var once := Snipped(messages, protectedTail);
    SnippedToolIndex(index, messages, cutoff);
    assert Snipped(once, protectedTail) == SnipBefore(index, once, cutoff);
    if HasHugeResult(messages, cutoff) {
      var i, k :| 0 <= i < |messages| && i < cutoff && 0 <= k < |messages[i].content| &&
        IsSnippable(index, messages[i].content[k]) && |messages[i].content[k].output| >= Power10(73);
      SnipBlockTwice(index, messages[i].content[k]);
      assert SnipBefore(index, once, cutoff)[i].content[k] != once[i].content[k];
    } else {
      forall i | 0 <= i < |messages| && i < cutoff ensures SnipMessage(index, once[i]) == once[i] {
        SnipMessageTwice(index, messages[i]);
      }
    }
  }

  lemma SnipMessageTwice(index: map<string, string>, m: Message)
    requires forall k :: 0 <= k < |m.content| ==>
             !(IsSnippable(index, m.content[k]) && |m.content[k].output| >= Power10(73))
    ensures SnipMessage(index, SnipMessage(index, m)) == SnipMessage(index, m)
  {
    var once := SnipContent(index, m.content);
    forall k | 0 <= k < |m.content| ensures SnipBlock(index, once[k]) == once[k] {
      SnipBlockTwice(index, m.content[k]);
    }
    assert SnipContent(index, once) == once;
  }

  // ----- The two layers together

  lemma SnippedIds(index: map<string, string>, content: seq<Content>)
    ensures Calls(SnipContent(index, content)) == Calls(content)
    ensures ResultIds(SnipContent(index, content)) == ResultIds(content)
  {
    var out := SnipContent(index, content);
    forall c ensures c in Calls(out) <==> c in Calls(content) {
      if c in Calls(content) {
        var k :| 0 <= k < |content| && content[k] == c;
        assert out[k] == c;
      }
    }
    forall id ensures id in ResultIds(out) <==> id in ResultIds(content) {
      if id in ResultIds(content) {
        var c :| c in content && c.ToolResult? && c.id == id;
        var k :| 0 <= k < |content| && content[k] == c;
        assert out[k] in out && out[k].ToolResult? && out[k].id == id;
      }
      if id in ResultIds(out) {
        var c :| c in out && c.ToolResult? && c.id == id;
        var k :| 0 <= k < |out| && out[k] == c;
        assert content[k] in content && content[k].ToolResult? && content[k].id == id;
      }
    }
  }

  /** Two histories with the same roles, calls and result ids. */
  ghost predicate SameCalls(a: seq<Message>, b: seq<Message>) {
    |a| == |b| &&
    forall i :: 0 <= i < |a| ==>
      a[i].role == b[i].role && Calls(a[i].content) == Calls(b[i].content) &&
        ResultIds(a[i].content) == ResultIds(b[i].content)
  }

  lemma SnippingKeepsCalls(index: map<string, string>, messages: seq<Message>, cutoff: nat)
    ensures SameCalls(messages, SnipBefore(index, messages, cutoff))
  {
    forall i | 0 <= i < |messages| {
      SnippedIds(index, messages[i].content);
    }
  }

  /** What is dropped depends on roles, calls and result ids alone. */
  lemma {:induction false} SameCallsSameRounds(a: seq<Message>, b: seq<Message>, cutoff: nat, i: nat)
    requires SameCalls(a, b) && i < |a|
    ensures RoundAt(a, cutoff, i) == RoundAt(b, cutoff, i)
  {
    if i > 0 {
      SameCallsSameRounds(a, b, cutoff, i - 1);
    }
  }

  lemma {:induction false} SameCallsSamePairing(a: seq<Message>, b: seq<Message>)
    requires SameCalls(a, b)
    ensures PairingOf(a) == PairingOf(b)
    decreases |a|
  {
    if |a| > 0 {
      SameCallsSamePairing(a[..|a| - 1], b[..|b| - 1]);
    }
  }

  /** Snipping first does not change which messages the second layer drops. */
  lemma SnippingKeepsRounds(messages: seq<Message>, protectedTail: nat, i: nat)
    requires i < |messages|
    ensures var cutoff := Cutoff(messages, protectedTail);
            RoundAt(Snipped(messages, protectedTail), cutoff, i) == RoundAt(messages, cutoff, i)
  {
    var index, cutoff := ToolIndex(messages), Cutoff(messages, protectedTail);
    SnippingKeepsCalls(index, messages, cutoff);
    SameCallsSameRounds(messages, SnipBefore(index, messages, cutoff), cutoff, i);
  }

  /** Both layers together leave every call answered, and a well paired history well paired before the second. */
  lemma BothLayersKeepCallsAnswered(messages: seq<Message>, protectedTail: nat)
    requires AllAnswered(messages)
    ensures WellPaired(messages) ==> WellPaired(Snipped(messages, protectedTail))
    ensures AllAnswered(MicroCompacted(Snipped(messages, protectedTail), protectedTail))
  {
    var snipped := Snipped(messages, protectedTail);
    SnippingKeepsCalls(ToolIndex(messages), messages, Cutoff(messages, protectedTail));
    SameCallsSamePairing(messages, snipped);
    CallsStayAnswered(snipped, protectedTail);
  }

  // ----- What is shortened, told by the blocks alone

  predicate IsSnippableName(name: string) {
    name == "file_read" || name == "glob" || name == "grep" || name == "web_fetch" || name == "web_search"
  }

  lemma {:induction false} LastCallIn(content: seq<Content>, id: string) returns (k: nat)
    requires !NoCallOf(content, id)
    ensures k < |content| && IsCallOf(content[k], id) && NoCallOf(content[k + 1..], id)
  {
    var n := |content| - 1;
    if IsCallOf(content[n], id) {
      k := n;
    } else {
      assert !NoCallOf(content[..n], id);
      k := LastCallIn(content[..n], id);
      assert content[k + 1..] == content[..n][k + 1..] + [content[n]];
    }
  }

  lemma {:induction false} LastCallOf(messages: seq<Message>, id: string) returns (i: nat, k: nat)
    requires id in ToolIndex(messages)
    ensures IsLastCall(messages, i, k) && messages[i].content[k].id == id
  {
    var n := |messages| - 1;
    if NoCallOf(messages[n].content, id) {
      NoCallLeavesIndex(ToolIndex(messages[..n]), messages[n].content, id);
      i, k := LastCallOf(messages[..n], id);
    } else {
      i := n;
      k := LastCallIn(messages[n].content, id);
    }
  }

  /** The last call that has the result's id is of a tool whose results are shortened. */
  ghost predicate IsOfSnippableTool(messages: seq<Message>, id: string) {
    exists i: nat, k: nat :: IsLastCall(messages, i, k) && messages[i].content[k].id == id &&
      IsSnippableName(messages[i].content[k].name)
  }

  /** A result before the protected tail that is long and of such a tool. */
  ghost predicate IsShortened(messages: seq<Message>, protectedTail: nat, i: nat, block: Content) {
    i + protectedTail < |messages| && block.ToolResult? && |block.output| > 100 && IsOfSnippableTool(messages, block.id)
  }

  lemma SnippableIff(messages: seq<Message>, block: Content)
    ensures IsSnippable(ToolIndex(messages), block) <==>
            block.ToolResult? && |block.output| > 100 && IsOfSnippableTool(messages, block.id)
  {
    if IsSnippable(ToolIndex(messages), block) {
      var i, k := LastCallOf(messages, block.id);
      LastCallNames(messages, i, k);
    }
    if block.ToolResult? && IsOfSnippableTool(messages, block.id) {
      var i: nat, k: nat :| IsLastCall(messages, i, k) && messages[i].content[k].id == block.id &&
        IsSnippableName(messages[i].content[k].name);
      LastCallNames(messages, i, k);
    }
  }

  /** Exactly those results are replaced by a note of their length, and every other block stays as it is. */
  lemma BlockIsShortenedIff(messages: seq<Message>, protectedTail: nat, i: nat, k: nat)
    requires i < |messages| && k < |messages[i].content|
    ensures var block := messages[i].content[k];
            Snipped(messages, protectedTail)[i].content[k] ==
            if IsShortened(messages, protectedTail, i, block) then
              ToolResult(block.id, "[result truncated — " + Decimal(|block.output|) + " chars]", block.isError, [])
            else block
  {
    SnippableIff(messages, messages[i].content[k]);
  }
}
