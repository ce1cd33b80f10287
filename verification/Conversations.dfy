/** The live message list, and the removal of tool calls that no result answers. */
module Conversations {
  import opened Messages

  // ----- Content blocks of a history

  datatype Block = Block(role: Role, content: Content)

  function BlocksIn(role: Role, content: seq<Content>): seq<Block> {
    seq(|content|, i requires 0 <= i < |content| => Block(role, content[i]))
  }

  function Blocks(ms: seq<Message>): seq<Block> {
    if |ms| == 0 then []
    else
      var last := ms[|ms| - 1];
      Blocks(ms[..|ms| - 1]) + BlocksIn(last.role, last.content)
  }

  predicate IsCall(b: Block) {
    b.role.Assistant? && b.content.ToolUse?
  }

  predicate IsResult(b: Block) {
    b.role.Tool? && b.content.ToolResult?
  }

  /** The ids that some result answers, wherever it stands. */
  function ResolvedIds(blocks: seq<Block>): set<string> {
    if |blocks| == 0 then {}
    else
      var b := blocks[|blocks| - 1];
      ResolvedIds(blocks[..|blocks| - 1]) + if IsResult(b) then {b.content.id} else {}
  }

  function OrphansIn(blocks: seq<Block>, resolved: set<string>): seq<Content> {
    if |blocks| == 0 then []
    else
      var b := blocks[|blocks| - 1];
      OrphansIn(blocks[..|blocks| - 1], resolved) + if IsCall(b) && b.content.id !in resolved then [b.content] else []
  }

  function Orphans(ms: seq<Message>): seq<Content> {
    OrphansIn(Blocks(ms), ResolvedIds(Blocks(ms)))
  }

  function Ids(calls: seq<Content>): set<string> {
    set c | c in calls && c.ToolUse? :: c.id
  }

  // ----- The two passes

  predicate IsGone(b: Block, ids: set<string>) {
    (IsCall(b) || IsResult(b)) && b.content.id in ids
  }

  function Kept(role: Role, content: seq<Content>, ids: set<string>): seq<Content> {
    if |content| == 0 then []
    else
      var last := content[|content| - 1];
      Kept(role, content[..|content| - 1], ids) + if IsGone(Block(role, last), ids) then [] else [last]
  }

  /** Messages of the role lose their blocks with these ids; one that has nothing left goes. */
  function StripRole(role: Role, ms: seq<Message>, ids: set<string>): seq<Message> {
    if |ms| == 0 then []
    else
      var last := ms[|ms| - 1];
      StripRole(role, ms[..|ms| - 1], ids) + StripOne(role, last, ids)
  }

  function StripOne(role: Role, m: Message, ids: set<string>): seq<Message> {
    if m.role != role then [m]
    else
      var content := Kept(role, m.content, ids);
      if |content| == 0 then [] else [Message(role, content)]
  }

  /** `_strip_orphaned_unlocked`. */
  function Strip(ms: seq<Message>): seq<Message> {
    var orphans := Orphans(ms);
    if |orphans| == 0 then ms else StripRole(Tool, StripRole(Assistant, ms, Ids(orphans)), Ids(orphans))
  }

  // ----- The conversation as an object

  class LiveMessage {
    const role: Role
    var content: seq<Content>

    constructor (role: Role, content: seq<Content>)
      ensures this.role == role && this.content == content
    {
      this.role, this.content := role, content;
    }

    function Value(): Message
      reads this
    {
      Message(role, content)
    }
  }

  function Values(ms: seq<LiveMessage>): seq<Message>
    reads ms
  {
    seq(|ms|, i requires 0 <= i < |ms| reads ms => ms[i].Value())
  }

  ghost predicate Distinct(ms: seq<LiveMessage>) {
    forall i, j :: 0 <= i < j < |ms| ==> ms[i] != ms[j]
  }

  ghost predicate SomeOf(part: seq<LiveMessage>, all: seq<LiveMessage>) {
    forall m :: m in part ==> m in all
  }

  method SetContent(msg: LiveMessage, content: seq<Content>, ghost left: seq<LiveMessage>,
                    ghost right: seq<LiveMessage>)
    requires msg !in left && msg !in right
    modifies msg
    ensures msg.content == content
    ensures Values(left) == old(Values(left)) && Values(right) == old(Values(right))
  {
    msg.content := content;
  }

  lemma ValuesOfParts(left: seq<LiveMessage>, right: seq<LiveMessage>)
    ensures Values(left + right) == Values(left) + Values(right)
  {
  }

  lemma DistinctParts(left: seq<LiveMessage>, msg: LiveMessage, right: seq<LiveMessage>)
    requires Distinct(left + [msg] + right)
    ensures msg !in left && msg !in right && Distinct(left + right)
  {
    var all := left + [msg] + right;
    var n := |left|;
    assert all[n] == msg && all[..n] == left && all[n + 1..] == right;
    forall m | m in left ensures m != msg {
      var j :| 0 <= j < n && left[j] == m;
      assert all[j] == m;
    }
    forall m | m in right ensures m != msg {
      var j :| 0 <= j < |right| && right[j] == m;
      assert all[n + 1 + j] == m;
    }
    forall i, j | 0 <= i < j < |left + right| ensures (left + right)[i] != (left + right)[j] {
      var i', j' := if i < n then i else i + 1, if j < n then j else j + 1;
      assert all[i'] == (left + right)[i] && all[j'] == (left + right)[j];
    }
  }

  method KeepContent(role: Role, content: seq<Content>, ids: set<string>) returns (kept: seq<Content>)
    ensures kept == Kept(role, content, ids)
  {
    kept := [];
    for i := 0 to |content|
      invariant kept == Kept(role, content[..i], ids)
    {
      assert content[..i + 1][..i] == content[..i];
      if !IsGone(Block(role, content[i]), ids) {
        kept := kept + [content[i]];
      }
    }
    assert content[..|content|] == content;
  }

  method ResultIdsIn(content: seq<Content>) returns (ids: set<string>)
    ensures ids == ResolvedIds(BlocksIn(Tool, content))
  {
    ids := {};
    for j := 0 to |content|
      invariant ids == ResolvedIds(BlocksIn(Tool, content[..j]))
    {
      BlocksInSnoc(Tool, content, j);
      if content[j].ToolResult? {
        ids := ids + {content[j].id};
      }
    }
    assert content[..|content|] == content;
  }

  method CallsWithoutResult(content: seq<Content>, resolved: set<string>) returns (calls: seq<Content>)
    ensures calls == OrphansIn(BlocksIn(Assistant, content), resolved)
  {
    calls := [];
    for j := 0 to |content|
      invariant calls == OrphansIn(BlocksIn(Assistant, content[..j]), resolved)
    {
      OrphansSnoc(Assistant, content, j, resolved);
      if content[j].ToolUse? && content[j].id !in resolved {
        calls := calls + [content[j]];
      }
    }
    assert content[..|content|] == content;
  }

  class Conversation {
    var messages: seq<LiveMessage>

    /** Each message is one object, so changing one changes no other. */
    ghost predicate Valid()
      reads this
    {
      Distinct(messages)
    }

    ghost function Objects(): set<object>
      reads this
    {
      set m | m in messages
    }

    constructor ()
      ensures Valid() && messages == []
    {
      messages := [];
    }

    method Add(role: Role, content: seq<Content>)
      requires Valid()
      modifies this
      ensures Valid() && |messages| > 0 && messages[..|messages| - 1] == old(messages)
      ensures fresh(messages[|messages| - 1])
      ensures Values(messages) == old(Values(messages)) + [Message(role, content)]
    {
      var m := new LiveMessage(role, content);
      messages := messages + [m];
      assert messages[..|messages| - 1] == old(messages);
    }

    /** `list.remove`: the first message that is equal goes, whichever object it is. */
    method RemoveEqual(target: LiveMessage, ghost left: seq<LiveMessage>, ghost right: seq<LiveMessage>)
      requires messages == left + [target] + right
      requires forall j :: 0 <= j < |left| ==> left[j].Value() != target.Value()
      modifies this
      ensures messages == left + right
    {
      assert messages[|left|] == target;
      var k := 0;
      while messages[k].Value() != target.Value()
        invariant k <= |left|
        decreases |left| - k
      {
        k := k + 1;
      }
      assert forall j :: 0 <= j < |left| ==> messages[j] == left[j];
      messages := messages[..k] + messages[k + 1..];
    }

    /** One round of the first pass. */
    method StripCallsOf(msg: LiveMessage, ids: set<string>, ghost left: seq<LiveMessage>, ghost right: seq<LiveMessage>)
      requires messages == left + [msg] + right && msg !in left && msg !in right
      requires forall j :: 0 <= j < |left| ==> left[j].Value() != Message(Assistant, [])
      modifies this, msg
      ensures Values(left) == old(Values(left)) && Values(right) == old(Values(right))
      ensures var one := StripOne(Assistant, old(msg.Value()), ids);
              if |one| == 0 then messages == left + right else messages == old(messages) && [msg.Value()] == one
    {
      if msg.role.Assistant? {
        var content := KeepContent(Assistant, msg.content, ids);
        ghost var values := Values(left);
        SetContent(msg, content, left, right);
        if content == [] {
          assert forall j :: 0 <= j < |left| ==> left[j].Value() == values[j];
          RemoveEqual(msg, left, right);
        }
      }
    }

    /** One round of the first pass, where `left` is what it kept so far and `values` what the snapshot held. */
    method StripCallsAt(snapshot: seq<LiveMessage>, i: nat, ids: set<string>, ghost values: seq<Message>,
                        ghost left: seq<LiveMessage>)
      returns (ghost left': seq<LiveMessage>)
      requires Valid() && i < |snapshot| == |values| && messages == left + snapshot[i..]
      requires Values(left) == StripRole(Assistant, values[..i], ids) && Values(snapshot[i..]) == values[i..]
      modifies this, snapshot[i]
      ensures Valid() && messages == left' + snapshot[i + 1..] && (left' == left || left' == left + [snapshot[i]])
      ensures Values(left') == StripRole(Assistant, values[..i + 1], ids) &&
              Values(snapshot[i + 1..]) == values[i + 1..]
    {
      var msg := snapshot[i];
      ghost var right := snapshot[i + 1..];
      OneOff(left, snapshot, values, i);
      DistinctParts(left, msg, right);
      NoneEmpty(Assistant, values[..i], ids);
      assert forall j :: 0 <= j < |left| ==> left[j].Value() == Values(left)[j];
      StripCallsOf(msg, ids, left, right);
      StripRoleSnoc(Assistant, values, i, ids);
      if |StripOne(Assistant, values[i], ids)| == 0 {
        left' := left;
        assert Values(left) + [] == Values(left);
      } else {
        left' := left + [msg];
        ValuesOfParts(left, [msg]);
      }
    }

    /** The first pass goes over a snapshot, and removes from the list itself. */
    method StripCalls(ids: set<string>)
      requires Valid()
      modifies this, Objects()
      ensures Valid() && Objects() <= old(Objects())
      ensures Values(messages) == StripRole(Assistant, old(Values(messages)), ids)
    {
      var snapshot := messages;
      ghost var values, left: seq<LiveMessage> := Values(snapshot), [];
      for i := 0 to |snapshot|
        invariant Valid() && messages == left + snapshot[i..] && SomeOf(left, snapshot)
        invariant Values(left) == StripRole(Assistant, values[..i], ids)
        invariant Values(snapshot[i..]) == values[i..]
      {
        left := StripCallsAt(snapshot, i, ids, values, left);
      }
      assert values[..|values|] == values && left + snapshot[|snapshot|..] == left;
    }

    /** One round of the second pass. */
    method StripResultsOf(surviving: seq<LiveMessage>, msg: LiveMessage, ids: set<string>,
                          ghost right: seq<LiveMessage>)
      returns (surviving': seq<LiveMessage>)
      requires msg !in surviving && msg !in right
      modifies msg
      ensures surviving' == if |StripOne(Tool, old(msg.Value()), ids)| == 0 then surviving else surviving + [msg]
      ensures Values(surviving') == old(Values(surviving)) + StripOne(Tool, old(msg.Value()), ids)
      ensures Values(right) == old(Values(right))
    {
      if msg.role.Tool? {
        var remaining := KeepContent(Tool, msg.content, ids);
        if remaining == [] {
          return surviving;
        }
        SetContent(msg, remaining, surviving, right);
      }
      surviving' := surviving + [msg];
      ValuesOfParts(surviving, [msg]);
    }

    /** The second pass builds the list anew. */
    method StripResults(ids: set<string>)
      requires Valid()
      modifies this, Objects()
      ensures Valid() && Objects() <= old(Objects())
      ensures Values(messages) == StripRole(Tool, old(Values(messages)), ids)
    {
      ghost var values := Values(messages);
      var surviving: seq<LiveMessage> := [];
      for i := 0 to |messages|
        invariant messages == old(messages) && Distinct(surviving + messages[i..]) && SomeOf(surviving, messages)
        invariant Values(surviving) == StripRole(Tool, values[..i], ids)
        invariant Values(messages[i..]) == values[i..]
      {
        OneOff(surviving, messages, values, i);
        DistinctParts(surviving, messages[i], messages[i + 1..]);
        surviving := StripResultsOf(surviving, messages[i], ids, messages[i + 1..]);
        StripRoleSnoc(Tool, values, i, ids);
      }
      assert values[..|values|] == values && surviving + messages[|messages|..] == surviving;
      messages := surviving;
    }

    /** `strip_orphaned_tool_calls`. */
    method StripOrphanedToolCalls() returns (removed: nat)
      requires Valid()
      modifies this, Objects()
      ensures Valid() && Objects() <= old(Objects())
      ensures Values(messages) == Strip(old(Values(messages)))
      ensures removed == |Orphans(old(Values(messages)))|
    {
      var orphans := AllUnresolvedToolCalls();
      if |orphans| == 0 {
        return 0;
      }
      var orphanIds := Ids(orphans);
      StripCalls(orphanIds);
      StripResults(orphanIds);
      return |orphans|;
    }

    method AllUnresolvedToolCalls() returns (orphans: seq<Content>)
      ensures orphans == Orphans(Values(messages))
    {
      ghost var values := Values(messages);
      var resolvedIds: set<string> := {};
      for i := 0 to |messages|
        invariant resolvedIds == ResolvedIds(Blocks(values[..i]))
      {
        var msg := messages[i];
        ResolvedInOneMore(values, i);
        if msg.role.Tool? {
          var ids := ResultIdsIn(msg.content);
          resolvedIds := resolvedIds + ids;
        }
      }
      assert values[..|values|] == values;
      orphans := [];
      for i := 0 to |messages|
        invariant orphans == OrphansIn(Blocks(values[..i]), resolvedIds)
      {
        var msg := messages[i];
        OrphansInOneMore(values, i, resolvedIds);
        if msg.role.Assistant? {
          var calls := CallsWithoutResult(msg.content, resolvedIds);
          orphans := orphans + calls;
        }
      }
    }
  }

  // ----- Passing over the messages

  lemma OneOff(left: seq<LiveMessage>, all: seq<LiveMessage>, values: seq<Message>, i: nat)
    requires i < |all| && |values| == |all| && Values(all[i..]) == values[i..]
    ensures left + all[i..] == left + [all[i]] + all[i + 1..]
    ensures all[i].Value() == values[i] && Values(all[i + 1..]) == values[i + 1..]
  {
    assert all[i..] == [all[i]] + all[i + 1..] && values[i..] == [values[i]] + values[i + 1..];
    ValuesOfParts([all[i]], all[i + 1..]);
  }

  lemma StripRoleSnoc(role: Role, ms: seq<Message>, i: nat, ids: set<string>)
    requires i < |ms|
    ensures StripRole(role, ms[..i + 1], ids) == StripRole(role, ms[..i], ids) + StripOne(role, ms[i], ids)
  {
    assert ms[..i + 1][..i] == ms[..i];
  }

  lemma {:induction false} NoneEmpty(role: Role, ms: seq<Message>, ids: set<string>)
    ensures Message(role, []) !in StripRole(role, ms, ids)
  {
    if |ms| > 0 {
      NoneEmpty(role, ms[..|ms| - 1], ids);
    }
  }

  // ----- Blocks of one more message

  lemma BlocksInSnoc(role: Role, content: seq<Content>, j: nat)
    requires j < |content|
    ensures BlocksIn(role, content[..j + 1]) == BlocksIn(role, content[..j]) + [Block(role, content[j])]
    ensures var blocks := BlocksIn(role, content[..j + 1]);
            blocks[..j] == BlocksIn(role, content[..j]) && blocks[j] == Block(role, content[j])
  {
  }

  lemma OrphansSnoc(role: Role, content: seq<Content>, j: nat, resolved: set<string>)
    requires j < |content|
    ensures OrphansIn(BlocksIn(role, content[..j + 1]), resolved) ==
            OrphansIn(BlocksIn(role, content[..j]), resolved) +
            (if IsCall(Block(role, content[j])) && content[j].id !in resolved then [content[j]] else [])
  {
    BlocksInSnoc(role, content, j);
    var blocks := BlocksIn(role, content[..j + 1]);
    assert |blocks| == j + 1;
  }

  lemma {:induction false} ResolvedInBoth(a: seq<Block>, b: seq<Block>)
    ensures ResolvedIds(a + b) == ResolvedIds(a) + ResolvedIds(b)
  {
    if |b| == 0 {
      assert a + b == a;
    } else {
      ResolvedInBoth(a, b[..|b| - 1]);
      assert (a + b)[..|a + b| - 1] == a + b[..|b| - 1];
    }
  }

  lemma {:induction false} OrphansInBoth(a: seq<Block>, b: seq<Block>, resolved: set<string>)
    ensures OrphansIn(a + b, resolved) == OrphansIn(a, resolved) + OrphansIn(b, resolved)
  {
    if |b| == 0 {
      assert a + b == a;
    } else {
      OrphansInBoth(a, b[..|b| - 1], resolved);
      assert (a + b)[..|a + b| - 1] == a + b[..|b| - 1];
    }
  }

  lemma {:induction false} NoResults(role: Role, content: seq<Content>)
    requires role != Tool
    ensures ResolvedIds(BlocksIn(role, content)) == {}
  {
    if |content| > 0 {
      NoResults(role, content[..|content| - 1]);
      BlocksInSnoc(role, content, |content| - 1);
      assert content[..|content|] == content;
    }
  }

  lemma {:induction false} NoCalls(role: Role, content: seq<Content>, resolved: set<string>)
    requires role != Assistant
    ensures OrphansIn(BlocksIn(role, content), resolved) == []
  {
    if |content| > 0 {
      NoCalls(role, content[..|content| - 1], resolved);
      BlocksInSnoc(role, content, |content| - 1);
      assert content[..|content|] == content;
    }
  }

  lemma ResolvedInOneMore(values: seq<Message>, i: nat)
    requires i < |values|
    ensures ResolvedIds(Blocks(values[..i + 1])) ==
            ResolvedIds(Blocks(values[..i])) + ResolvedIds(BlocksIn(values[i].role, values[i].content))
    ensures values[i].role != Tool ==> ResolvedIds(BlocksIn(values[i].role, values[i].content)) == {}
  {
    assert values[..i + 1][..i] == values[..i];
    ResolvedInBoth(Blocks(values[..i]), BlocksIn(values[i].role, values[i].content));
    if values[i].role != Tool {
      NoResults(values[i].role, values[i].content);
    }
  }

  lemma OrphansInOneMore(values: seq<Message>, i: nat, resolved: set<string>)
    requires i < |values|
    ensures OrphansIn(Blocks(values[..i + 1]), resolved) ==
            OrphansIn(Blocks(values[..i]), resolved) + OrphansIn(BlocksIn(values[i].role, values[i].content), resolved)
    ensures values[i].role != Assistant ==> OrphansIn(BlocksIn(values[i].role, values[i].content), resolved) == []
  {
    assert values[..i + 1][..i] == values[..i];
    OrphansInBoth(Blocks(values[..i]), BlocksIn(values[i].role, values[i].content), resolved);
    if values[i].role != Assistant {
      NoCalls(values[i].role, values[i].content, resolved);
    }
  }
}
