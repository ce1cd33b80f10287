/** What stripping unanswered tool calls does to a history, block by block. */
module OrphanStripping {
  import opened Messages
  import opened Conversations

  // ----- Blocks that stay

  /** The blocks without the calls that are not in `resolved`. */
  function Answered(blocks: seq<Block>, resolved: set<string>): seq<Block> {
    if |blocks| == 0 then []
    else
      var b := blocks[|blocks| - 1];
      Answered(blocks[..|blocks| - 1], resolved) + if IsCall(b) && b.content.id !in resolved then [] else [b]
  }

  function WithoutGone(role: Role, blocks: seq<Block>, ids: set<string>): seq<Block> {
    if |blocks| == 0 then []
    else
      var b := blocks[|blocks| - 1];
      WithoutGone(role, blocks[..|blocks| - 1], ids) + if b.role == role && IsGone(b, ids) then [] else [b]
  }

  function CallIdsIn(blocks: seq<Block>): set<string> {
    if |blocks| == 0 then {}
    else
      var b := blocks[|blocks| - 1];
      CallIdsIn(blocks[..|blocks| - 1]) + if IsCall(b) then {b.content.id} else {}
  }

  lemma {:induction false} OrphanIdsAre(blocks: seq<Block>, resolved: set<string>)
    ensures Ids(OrphansIn(blocks, resolved)) == CallIdsIn(blocks) - resolved
  {
    if |blocks| > 0 {
      var n := |blocks| - 1;
      var before, b := OrphansIn(blocks[..n], resolved), blocks[n];
      OrphanIdsAre(blocks[..n], resolved);
      if IsCall(b) && b.content.id !in resolved {
        IdsSnoc(before, b.content);
      } else {
        assert before + [] == before;
      }
    }
  }

  lemma IdsSnoc(calls: seq<Content>, c: Content)
    requires c.ToolUse?
    ensures Ids(calls + [c]) == Ids(calls) + {c.id}
  {
    assert forall x :: x in calls + [c] <==> x in calls || x == c;
  }

  // ----- Concatenation

  lemma {:induction false} BlocksOfBoth(a: seq<Message>, b: seq<Message>)
    ensures Blocks(a + b) == Blocks(a) + Blocks(b)
  {
    if |b| == 0 {
      assert a + b == a;
    } else {
      var m := b[|b| - 1];
      BlocksOfBoth(a, b[..|b| - 1]);
      var whole := a + b;
      assert whole[..|whole| - 1] == a + b[..|b| - 1] && whole[|whole| - 1] == m;
      var x, y, z := Blocks(a), Blocks(b[..|b| - 1]), BlocksIn(m.role, m.content);
      assert Blocks(whole) == (x + y) + z && Blocks(b) == y + z;
      assert (x + y) + z == x + (y + z);
    }
  }

  lemma {:induction false} WithoutGoneOfBoth(role: Role, a: seq<Block>, b: seq<Block>, ids: set<string>)
    ensures WithoutGone(role, a + b, ids) == WithoutGone(role, a, ids) + WithoutGone(role, b, ids)
  {
    if |b| == 0 {
      assert a + b == a;
    } else {
      WithoutGoneOfBoth(role, a, b[..|b| - 1], ids);
      assert (a + b)[..|a + b| - 1] == a + b[..|b| - 1];
    }
  }

  lemma {:induction false} AnsweredOfBoth(a: seq<Block>, b: seq<Block>, resolved: set<string>)
    ensures Answered(a + b, resolved) == Answered(a, resolved) + Answered(b, resolved)
  {
    if |b| == 0 {
      assert a + b == a;
    } else {
      AnsweredOfBoth(a, b[..|b| - 1], resolved);
      assert (a + b)[..|a + b| - 1] == a + b[..|b| - 1];
    }
  }

  lemma {:induction false} CallIdsOfBoth(a: seq<Block>, b: seq<Block>)
    ensures CallIdsIn(a + b) == CallIdsIn(a) + CallIdsIn(b)
  {
    if |b| == 0 {
      assert a + b == a;
    } else {
      CallIdsOfBoth(a, b[..|b| - 1]);
      assert (a + b)[..|a + b| - 1] == a + b[..|b| - 1];
    }
  }

  // ----- The passes, block by block

  lemma {:induction false} KeptIsWithoutGone(role: Role, content: seq<Content>, ids: set<string>)
    ensures BlocksIn(role, Kept(role, content, ids)) == WithoutGone(role, BlocksIn(role, content), ids)
  {
    if |content| > 0 {
      var n := |content| - 1;
      KeptIsWithoutGone(role, content[..n], ids);
      BlocksInSnoc(role, content, n);
      assert content[..n + 1] == content;
      var kept := Kept(role, content[..n], ids);
      assert BlocksIn(role, kept + [content[n]]) == BlocksIn(role, kept) + [Block(role, content[n])];
      assert kept + [] == kept;
    }
  }

  lemma {:induction false} OtherRolesStay(role: Role, other: Role, content: seq<Content>, ids: set<string>)
    requires role != other
    ensures WithoutGone(role, BlocksIn(other, content), ids) == BlocksIn(other, content)
  {
    if |content| > 0 {
      var n := |content| - 1;
      OtherRolesStay(role, other, content[..n], ids);
      BlocksInSnoc(other, content, n);
      assert content[..n + 1] == content;
    }
  }

  lemma BlocksOfStripOne(role: Role, m: Message, ids: set<string>)
    ensures Blocks(StripOne(role, m, ids)) == WithoutGone(role, BlocksIn(m.role, m.content), ids)
  {
    if m.role != role {
      OtherRolesStay(role, m.role, m.content, ids);
      BlocksOfOne(m);
    } else {
      var kept := Kept(role, m.content, ids);
      KeptIsWithoutGone(role, m.content, ids);
      BlocksOfOne(Message(role, kept));
    }
  }

  lemma BlocksOfOne(m: Message)
    ensures Blocks([m]) == BlocksIn(m.role, m.content)
  {
    assert [m][..0] == [];
    assert [] + BlocksIn(m.role, m.content) == BlocksIn(m.role, m.content);
  }

  lemma {:induction false} BlocksOfStripRole(role: Role, ms: seq<Message>, ids: set<string>)
    ensures Blocks(StripRole(role, ms, ids)) == WithoutGone(role, Blocks(ms), ids)
  {
    if |ms| > 0 {
      var n := |ms| - 1;
      var m := ms[n];
      BlocksOfStripRole(role, ms[..n], ids);
      BlocksOfStripOne(role, m, ids);
      BlocksOfBoth(StripRole(role, ms[..n], ids), StripOne(role, m, ids));
      WithoutGoneOfBoth(role, Blocks(ms[..n]), BlocksIn(m.role, m.content), ids);
    }
  }

  /** A pass over the tool messages removes no result when none has one of the ids. */
  lemma {:induction false} ResultsStay(blocks: seq<Block>, ids: set<string>)
    requires ids !! ResolvedIds(blocks)
    ensures WithoutGone(Tool, blocks, ids) == blocks
  {
    if |blocks| > 0 {
      ResultsStay(blocks[..|blocks| - 1], ids);
    }
  }

  lemma {:induction false} ResultsStayResolved(blocks: seq<Block>, ids: set<string>)
    ensures ResolvedIds(WithoutGone(Assistant, blocks, ids)) == ResolvedIds(blocks)
  {
    if |blocks| > 0 {
      var n := |blocks| - 1;
      var rest, b := WithoutGone(Assistant, blocks[..n], ids), blocks[n];
      ResultsStayResolved(blocks[..n], ids);
      assert (rest + [b])[..|rest|] == rest && rest + [] == rest;
    }
  }

  lemma {:induction false} WithoutOrphansIsAnswered(blocks: seq<Block>, ids: set<string>, resolved: set<string>)
    requires ids == (CallIdsIn(blocks) - resolved) + ids && ids !! resolved
    ensures WithoutGone(Assistant, blocks, ids) == Answered(blocks, resolved)
  {
    if |blocks| > 0 {
      WithoutOrphansIsAnswered(blocks[..|blocks| - 1], ids, resolved);
    }
  }

  lemma {:induction false} AnsweredHasNoOrphan(blocks: seq<Block>, resolved: set<string>)
    ensures OrphansIn(Answered(blocks, resolved), resolved) == []
    ensures ResolvedIds(Answered(blocks, resolved)) == ResolvedIds(blocks)
    ensures |Answered(blocks, resolved)| + |OrphansIn(blocks, resolved)| == |blocks|
  {
    if |blocks| > 0 {
      var n := |blocks| - 1;
      var rest, b := Answered(blocks[..n], resolved), blocks[n];
      AnsweredHasNoOrphan(blocks[..n], resolved);
      assert (rest + [b])[..|rest|] == rest && rest + [] == rest;
    }
  }

  lemma {:induction false} AllAnswered(blocks: seq<Block>, resolved: set<string>)
    requires OrphansIn(blocks, resolved) == []
    ensures Answered(blocks, resolved) == blocks
  {
    if |blocks| > 0 {
      AllAnswered(blocks[..|blocks| - 1], resolved);
    }
  }

  // ----- What stripping does

  /** Exactly the calls that no result answers go; every other block stays, in order. */
  lemma StripRemovesExactlyTheOrphans(ms: seq<Message>)
    ensures Blocks(Strip(ms)) == Answered(Blocks(ms), ResolvedIds(Blocks(ms)))
    ensures |Blocks(ms)| - |Blocks(Strip(ms))| == |Orphans(ms)|
  {
    var blocks := Blocks(ms);
    var resolved := ResolvedIds(blocks);
    var orphans := OrphansIn(blocks, resolved);
    AnsweredHasNoOrphan(blocks, resolved);
    if |orphans| == 0 {
      AllAnswered(blocks, resolved);
    } else {
      var ids := Ids(orphans);
      OrphanIdsAre(blocks, resolved);
      WithoutOrphansIsAnswered(blocks, ids, resolved);
      var first := StripRole(Assistant, ms, ids);
      BlocksOfStripRole(Assistant, ms, ids);
      BlocksOfStripRole(Tool, first, ids);
      ResultsStayResolved(blocks, ids);
      ResultsStay(Blocks(first), ids);
    }
  }

  /** Nothing is unresolved afterwards, so that stripping again changes nothing. */
  lemma StripLeavesNoOrphan(ms: seq<Message>)
    ensures Orphans(Strip(ms)) == [] && Strip(Strip(ms)) == Strip(ms)
  {
    StripRemovesExactlyTheOrphans(ms);
    AnsweredHasNoOrphan(Blocks(ms), ResolvedIds(Blocks(ms)));
  }

  // ----- Message by message

  function OrphanIds(ms: seq<Message>): set<string> {
    CallIdsIn(Blocks(ms)) - ResolvedIds(Blocks(ms))
  }

  function WithoutEmptyResults(ms: seq<Message>): seq<Message> {
    if |ms| == 0 then []
    else
      var m := ms[|ms| - 1];
      WithoutEmptyResults(ms[..|ms| - 1]) + if m.role.Tool? && |m.content| == 0 then [] else [m]
  }

  predicate HasContent(m: Message) {
    m.role.User? || |m.content| > 0
  }

  /** What the engine adds: no assistant or tool message without content. */
  ghost predicate AllHaveContent(ms: seq<Message>) {
    forall i :: 0 <= i < |ms| ==> HasContent(ms[i])
  }

  lemma {:induction false} NothingGone(role: Role, content: seq<Content>, ids: set<string>)
    requires WithoutGone(role, BlocksIn(role, content), ids) == BlocksIn(role, content)
    ensures Kept(role, content, ids) == content
  {
    KeptIsWithoutGone(role, content, ids);
    var kept := Kept(role, content, ids);
    assert |kept| == |BlocksIn(role, kept)| == |content|;
    forall i | 0 <= i < |content| ensures kept[i] == content[i] {
      assert BlocksIn(role, kept)[i] == BlocksIn(role, content)[i];
    }
  }

  lemma ResolvedOfLast(ms: seq<Message>)
    requires |ms| > 0
    ensures var m := ms[|ms| - 1];
            ResolvedIds(Blocks(ms)) == ResolvedIds(Blocks(ms[..|ms| - 1])) + ResolvedIds(BlocksIn(m.role, m.content))
  {
    var m := ms[|ms| - 1];
    ResolvedInBoth(Blocks(ms[..|ms| - 1]), BlocksIn(m.role, m.content));
  }

  /** The second pass never drops a result: it drops the tool messages that are empty, and changes no other. */
  lemma {:induction false} SecondPassDropsOnlyEmpty(ms: seq<Message>, ids: set<string>)
    requires ids !! ResolvedIds(Blocks(ms))
    ensures StripRole(Tool, ms, ids) == WithoutEmptyResults(ms)
  {
    if |ms| > 0 {
      var m := ms[|ms| - 1];
      ResolvedOfLast(ms);
      SecondPassDropsOnlyEmpty(ms[..|ms| - 1], ids);
      if m.role.Tool? {
        ResultsStay(BlocksIn(m.role, m.content), ids);
        NothingGone(Tool, m.content, ids);
      }
    }
  }

  lemma {:induction false} NoneIsEmpty(ms: seq<Message>)
    requires AllHaveContent(ms)
    ensures WithoutEmptyResults(ms) == ms
  {
    if |ms| > 0 {
      var before, m := ms[..|ms| - 1], ms[|ms| - 1];
      assert HasContent(m);
      NoneIsEmpty(before);
      assert before + [m] == ms;
    }
  }

  lemma {:induction false} KeptNothing(role: Role, content: seq<Content>)
    ensures Kept(role, content, {}) == content
  {
    if |content| > 0 {
      KeptNothing(role, content[..|content| - 1]);
    }
  }

  lemma StripOneNothing(m: Message)
    requires HasContent(m)
    ensures StripOne(Assistant, m, {}) == [m]
  {
    KeptNothing(Assistant, m.content);
  }

  ghost predicate LosesNothing(ms: seq<Message>) {
    StripRole(Assistant, ms, {}) == ms
  }

  lemma NextLosesNothing(front: seq<Message>, m: Message)
    requires LosesNothing(front) && HasContent(m)
    ensures LosesNothing(front + [m])
  {
    StripOneNothing(m);
    StripRoleSnoc(Assistant, front + [m], |front|, {});
    assert (front + [m])[..|front| + 1] == front + [m] && (front + [m])[..|front|] == front;
  }

  lemma {:induction false} StripNothing(ms: seq<Message>)
    requires AllHaveContent(ms)
    ensures LosesNothing(ms)
  {
    if |ms| > 0 {
      var n := |ms| - 1;
      var front, m := ms[..n], ms[n];
      forall i | 0 <= i < n ensures HasContent(front[i]) {
        assert HasContent(ms[i]);
      }
      assert HasContent(m);
      StripNothing(front);
      NextLosesNothing(front, m);
      assert ms == front + [m];
    }
  }

  lemma {:induction false} StripKeepsContent(ms: seq<Message>, ids: set<string>)
    requires AllHaveContent(ms)
    ensures AllHaveContent(StripRole(Assistant, ms, ids))
  {
    if |ms| > 0 {
      assert HasContent(ms[|ms| - 1]);
      StripKeepsContent(ms[..|ms| - 1], ids);
    }
  }

  /** Without empty messages the two passes are one filter over the assistant messages. */
  lemma StripIsOnePass(ms: seq<Message>)
    requires AllHaveContent(ms)
    ensures Strip(ms) == StripRole(Assistant, ms, OrphanIds(ms))
  {
    var blocks := Blocks(ms);
    var resolved := ResolvedIds(blocks);
    OrphanIdsAre(blocks, resolved);
    if |OrphansIn(blocks, resolved)| == 0 {
      assert Ids([]) == {};
      StripNothing(ms);
    } else {
      var ids := OrphanIds(ms);
      var first := StripRole(Assistant, ms, ids);
      BlocksOfStripRole(Assistant, ms, ids);
      ResultsStayResolved(blocks, ids);
      SecondPassDropsOnlyEmpty(first, ids);
      StripKeepsContent(ms, ids);
      NoneIsEmpty(first);
    }
  }

  // ----- Stripping more than once in a history

  lemma {:induction false} StripRoleOfBoth(role: Role, a: seq<Message>, b: seq<Message>, ids: set<string>)
    ensures StripRole(role, a + b, ids) == StripRole(role, a, ids) + StripRole(role, b, ids)
  {
    if |b| == 0 {
      assert a + b == a;
    } else {
      StripRoleOfBoth(role, a, b[..|b| - 1], ids);
      assert (a + b)[..|a + b| - 1] == a + b[..|b| - 1];
    }
  }

  lemma KeptSnoc(role: Role, content: seq<Content>, c: Content, ids: set<string>)
    ensures Kept(role, content + [c], ids) ==
            if IsGone(Block(role, c), ids) then Kept(role, content, ids) else Kept(role, content, ids) + [c]
  {
    assert (content + [c])[..|content|] == content;
    assert Kept(role, content, ids) + [] == Kept(role, content, ids);
  }

  lemma {:induction false} KeptTwice(role: Role, content: seq<Content>, a: set<string>, b: set<string>)
    ensures Kept(role, Kept(role, content, a), b) == Kept(role, content, a + b)
  {
    if |content| > 0 {
      var n := |content| - 1;
      var before, c := content[..n], content[n];
      KeptTwice(role, before, a, b);
      assert content == before + [c];
      KeptSnoc(role, before, c, a);
      KeptSnoc(role, before, c, a + b);
      KeptSnoc(role, Kept(role, before, a), c, b);
    }
  }

  lemma StripOneTwice(m: Message, a: set<string>, b: set<string>)
    ensures StripRole(Assistant, StripOne(Assistant, m, a), b) == StripOne(Assistant, m, a + b)
  {
    var one := StripOne(Assistant, m, a);
    if |one| > 0 {
      assert one[..0] == [] && [] + StripOne(Assistant, one[0], b) == StripOne(Assistant, one[0], b);
    }
    if m.role.Assistant? {
      KeptTwice(Assistant, m.content, a, b);
    }
  }

  lemma {:induction false} StripRoleTwice(ms: seq<Message>, a: set<string>, b: set<string>)
    ensures StripRole(Assistant, StripRole(Assistant, ms, a), b) == StripRole(Assistant, ms, a + b)
  {
    if |ms| > 0 {
      var n := |ms| - 1;
      StripRoleTwice(ms[..n], a, b);
      StripRoleOfBoth(Assistant, StripRole(Assistant, ms[..n], a), StripOne(Assistant, ms[n], a), b);
      StripOneTwice(ms[n], a, b);
    }
  }

  lemma {:induction false} KeptSame(content: seq<Content>, a: set<string>, b: set<string>)
    requires forall id :: id in CallIdsIn(BlocksIn(Assistant, content)) ==> (id in a <==> id in b)
    ensures Kept(Assistant, content, a) == Kept(Assistant, content, b)
  {
    if |content| > 0 {
      var n := |content| - 1;
      BlocksInSnoc(Assistant, content, n);
      assert content[..n + 1] == content;
      KeptSame(content[..n], a, b);
    }
  }

  /** Only the ids of calls that occur matter. */
  lemma {:induction false} StripRoleSame(ms: seq<Message>, a: set<string>, b: set<string>)
    requires forall id :: id in CallIdsIn(Blocks(ms)) ==> (id in a <==> id in b)
    ensures StripRole(Assistant, ms, a) == StripRole(Assistant, ms, b)
  {
    if |ms| > 0 {
      var n := |ms| - 1;
      CallIdsOfBoth(Blocks(ms[..n]), BlocksIn(ms[n].role, ms[n].content));
      StripRoleSame(ms[..n], a, b);
      if ms[n].role.Assistant? {
        KeptSame(ms[n].content, a, b);
      }
    }
  }

  lemma {:induction false} CallIdsWithoutGone(blocks: seq<Block>, ids: set<string>)
    ensures CallIdsIn(WithoutGone(Assistant, blocks, ids)) == CallIdsIn(blocks) - ids
  {
    if |blocks| > 0 {
      var n := |blocks| - 1;
      var rest, b := WithoutGone(Assistant, blocks[..n], ids), blocks[n];
      CallIdsWithoutGone(blocks[..n], ids);
      assert (rest + [b])[..|rest|] == rest && rest + [] == rest;
    }
  }

  lemma IdsOfStripped(ms: seq<Message>, ids: set<string>)
    ensures CallIdsIn(Blocks(StripRole(Assistant, ms, ids))) == CallIdsIn(Blocks(ms)) - ids
    ensures ResolvedIds(Blocks(StripRole(Assistant, ms, ids))) == ResolvedIds(Blocks(ms))
  {
    BlocksOfStripRole(Assistant, ms, ids);
    CallIdsWithoutGone(Blocks(ms), ids);
    ResultsStayResolved(Blocks(ms), ids);
  }

  lemma IdsOfBoth(a: seq<Message>, b: seq<Message>)
    ensures CallIdsIn(Blocks(a + b)) == CallIdsIn(Blocks(a)) + CallIdsIn(Blocks(b))
    ensures ResolvedIds(Blocks(a + b)) == ResolvedIds(Blocks(a)) + ResolvedIds(Blocks(b))
  {
    BlocksOfBoth(a, b);
    CallIdsOfBoth(Blocks(a), Blocks(b));
    ResolvedInBoth(Blocks(a), Blocks(b));
  }

  /** A result counts wherever it stands: no call is an orphan that a result before it has the id of. */
  lemma EarlierResultCounts(before: seq<Message>, after: seq<Message>)
    ensures OrphanIds(before + after) !! ResolvedIds(Blocks(before))
    ensures OrphanIds(before + after) * CallIdsIn(Blocks(after)) == OrphanIds(after) - ResolvedIds(Blocks(before))
  {
    IdsOfBoth(before, after);
  }

  /**
   * A history may be stripped before it goes on, as well as at the end, exactly when no later result answers a call
   * that was stripped.
   */
  lemma EarlyStripIsHarmlessIff(ms: seq<Message>, later: seq<Message>)
    requires AllHaveContent(ms) && AllHaveContent(later)
    ensures Strip(Strip(ms) + later) == Strip(ms + later) <==> OrphanIds(ms) !! ResolvedIds(Blocks(later))
  {
    if OrphanIds(ms) !! ResolvedIds(Blocks(later)) {
      EarlyStripIsHarmless(ms, later);
    } else {
      EarlyStripLosesAnsweredCall(ms, later);
    }
  }

  lemma EarlyStripIsHarmless(ms: seq<Message>, later: seq<Message>)
    requires AllHaveContent(ms) && AllHaveContent(later) && OrphanIds(ms) !! ResolvedIds(Blocks(later))
    ensures Strip(Strip(ms) + later) == Strip(ms + later)
  {
    var early, first := OrphanIds(ms), Strip(ms);
    StripIsOnePass(ms);
    StripKeepsContent(ms, early);
    StripIsOnePass(first + later);
    StripIsOnePass(ms + later);
    IdsOfStripped(ms, early);
    IdsOfBoth(first, later);
    IdsOfBoth(ms, later);
    var one, both := OrphanIds(first + later), OrphanIds(ms + later);
    StripRoleOfBoth(Assistant, first, later, one);
    StripRoleOfBoth(Assistant, ms, later, both);
    StripRoleTwice(ms, early, one);
    StripRoleSame(ms, early + one, both);
    StripRoleSame(later, one, both);
  }

  lemma EarlyStripLosesAnsweredCall(ms: seq<Message>, later: seq<Message>)
    requires !(OrphanIds(ms) !! ResolvedIds(Blocks(later)))
    ensures |Blocks(Strip(Strip(ms) + later))| < |Blocks(Strip(ms + later))|
  {
    var before, after := ResolvedIds(Blocks(ms)), ResolvedIds(Blocks(ms)) + ResolvedIds(Blocks(later));
    BlocksOfStripped(ms, later);
    StripRemovesExactlyTheOrphans(ms);
    AnsweredHasNoOrphan(Blocks(ms), before);
    BlocksOfStripped(Strip(ms), later);
    FewerBlocks(Blocks(ms), Blocks(later), before, after);
  }

  lemma BlocksOfStripped(ms: seq<Message>, later: seq<Message>)
    ensures Blocks(Strip(ms + later)) ==
            Answered(Blocks(ms) + Blocks(later), ResolvedIds(Blocks(ms)) + ResolvedIds(Blocks(later)))
  {
    StripRemovesExactlyTheOrphans(ms + later);
    BlocksOfBoth(ms, later);
    ResolvedInBoth(Blocks(ms), Blocks(later));
  }

  lemma FewerBlocks(blocks: seq<Block>, more: seq<Block>, before: set<string>, after: set<string>)
    requires before <= after && CallIdsIn(blocks) * (after - before) != {}
    ensures |Answered(Answered(blocks, before) + more, after)| < |Answered(blocks + more, after)|
  {
    AnsweredOfBoth(Answered(blocks, before), more, after);
    AnsweredOfBoth(blocks, more, after);
    AnsweredLater(blocks, before, after);
    AnsweredMore(blocks, before, after);
  }

  lemma {:induction false} AnsweredLater(blocks: seq<Block>, before: set<string>, after: set<string>)
    requires before <= after
    ensures Answered(Answered(blocks, before), after) == Answered(blocks, before)
  {
    if |blocks| > 0 {
      var n := |blocks| - 1;
      var rest, b := Answered(blocks[..n], before), blocks[n];
      AnsweredLater(blocks[..n], before, after);
      assert (rest + [b])[..|rest|] == rest && rest + [] == rest;
    }
  }

  lemma {:induction false} AnsweredMore(blocks: seq<Block>, before: set<string>, after: set<string>)
    requires before <= after
    ensures |Answered(blocks, before)| <= |Answered(blocks, after)|
    ensures CallIdsIn(blocks) * (after - before) != {} ==> |Answered(blocks, before)| < |Answered(blocks, after)|
  {
    if |blocks| > 0 {
      AnsweredMore(blocks[..|blocks| - 1], before, after);
    }
  }

  // ----- Results later in the history

  predicate HasLaterResult(blocks: seq<Block>, i: nat)
    requires i < |blocks| && IsCall(blocks[i])
  {
    exists j :: i < j < |blocks| && IsResult(blocks[j]) && blocks[j].content.id == blocks[i].content.id
  }

  /** Of the first `n` blocks the calls without a result later in the history, which is what is documented. */
  function WithoutLaterResult(blocks: seq<Block>, n: nat): seq<Content>
    requires n <= |blocks|
  {
    if n == 0 then []
    else
      WithoutLaterResult(blocks, n - 1) +
      if IsCall(blocks[n - 1]) && !HasLaterResult(blocks, n - 1) then [blocks[n - 1].content] else []
  }

  function DocumentedOrphans(ms: seq<Message>): seq<Content> {
    WithoutLaterResult(Blocks(ms), |Blocks(ms)|)
  }

  /** If the call has a result at all, it has one after it. */
  predicate AnsweredInOrder(blocks: seq<Block>, resolved: set<string>, i: nat)
    requires i < |blocks|
  {
    IsCall(blocks[i]) && blocks[i].content.id in resolved ==> HasLaterResult(blocks, i)
  }

  lemma {:induction false} ResultIsResolved(blocks: seq<Block>, j: nat)
    requires j < |blocks| && IsResult(blocks[j])
    ensures blocks[j].content.id in ResolvedIds(blocks)
  {
    if j < |blocks| - 1 {
      ResultIsResolved(blocks[..|blocks| - 1], j);
    }
  }

  ghost predicate AllInOrder(blocks: seq<Block>, resolved: set<string>, n: nat)
    requires n <= |blocks|
  {
    forall i :: 0 <= i < n ==> AnsweredInOrder(blocks, resolved, i)
  }

  lemma {:induction false} PrefixAgreesIff(blocks: seq<Block>, resolved: set<string>, n: nat)
    requires n <= |blocks| && resolved == ResolvedIds(blocks)
    ensures |OrphansIn(blocks[..n], resolved)| <= |WithoutLaterResult(blocks, n)|
    ensures AllInOrder(blocks, resolved, n) ==> OrphansIn(blocks[..n], resolved) == WithoutLaterResult(blocks, n)
    ensures !AllInOrder(blocks, resolved, n) ==> |OrphansIn(blocks[..n], resolved)| < |WithoutLaterResult(blocks, n)|
  {
    if n > 0 {
      var i := n - 1;
      PrefixAgreesIff(blocks, resolved, i);
      assert blocks[..n][..i] == blocks[..i] && blocks[..n][i] == blocks[i];
      if IsCall(blocks[i]) && HasLaterResult(blocks, i) {
        var j :| i < j < |blocks| && IsResult(blocks[j]) && blocks[j].content.id == blocks[i].content.id;
        ResultIsResolved(blocks, j);
      }
      assert AllInOrder(blocks, resolved, n) <==>
             AllInOrder(blocks, resolved, i) && AnsweredInOrder(blocks, resolved, i);
    }
  }

  /** The code finds the documented orphans exactly when every call that has a result has one after it. */
  lemma FindsDocumentedOrphansIff(ms: seq<Message>)
    ensures Orphans(ms) == DocumentedOrphans(ms) <==> AllInOrder(Blocks(ms), ResolvedIds(Blocks(ms)), |Blocks(ms)|)
  {
    var blocks := Blocks(ms);
    PrefixAgreesIff(blocks, ResolvedIds(blocks), |blocks|);
    assert blocks[..|blocks|] == blocks;
  }

  lemma {:induction false} NoneIsOrphan(blocks: seq<Block>, resolved: set<string>)
    requires forall i :: 0 <= i < |blocks| && IsCall(blocks[i]) ==> blocks[i].content.id in resolved
    ensures OrphansIn(blocks, resolved) == []
  {
    if |blocks| > 0 {
      NoneIsOrphan(blocks[..|blocks| - 1], resolved);
    }
  }

  /** An id that is used again: the result of the first call keeps the second from being found. */
  lemma ReusedIdHidesOrphan(call: Content, result: Content)
    requires call.ToolUse? && result.ToolResult? && call.id == result.id
    ensures var ms := [Message(Assistant, [call]), Message(Tool, [result]), Message(Assistant, [call])];
            Orphans(ms) == [] && DocumentedOrphans(ms) == [call]
  {
    var ms := [Message(Assistant, [call]), Message(Tool, [result]), Message(Assistant, [call])];
    var blocks := [Block(Assistant, call), Block(Tool, result), Block(Assistant, call)];
    ThreeBlocks(ms, call, result);
    var resolved := ResolvedIds(blocks);
    ResultIsResolved(blocks, 1);
    NoneIsOrphan(blocks, resolved);
    assert HasLaterResult(blocks, 0) && !HasLaterResult(blocks, 2);
    assert WithoutLaterResult(blocks, 1) == [];
    assert !IsCall(blocks[1]);
    assert WithoutLaterResult(blocks, 2) == WithoutLaterResult(blocks, 1) + [];
    assert WithoutLaterResult(blocks, 3) == WithoutLaterResult(blocks, 2) + [call];
  }

  lemma ThreeBlocks(ms: seq<Message>, call: Content, result: Content)
    requires ms == [Message(Assistant, [call]), Message(Tool, [result]), Message(Assistant, [call])]
    ensures Blocks(ms) == [Block(Assistant, call), Block(Tool, result), Block(Assistant, call)]
  {
    BlocksOfOne(ms[0]);
    BlocksOfOne(ms[1]);
    BlocksOfOne(ms[2]);
    BlocksOfBoth([ms[0]], [ms[1]]);
    BlocksOfBoth([ms[0], ms[1]], [ms[2]]);
    assert [ms[0]] + [ms[1]] == [ms[0], ms[1]] && [ms[0], ms[1]] + [ms[2]] == ms;
  }

  // ----- What goes, told by the blocks alone

  /** A call, and no result anywhere that has its id. */
  ghost predicate IsUnanswered(blocks: seq<Block>, n: nat) {
    && n < |blocks| && blocks[n].role == Assistant && blocks[n].content.ToolUse?
    && forall m :: 0 <= m < |blocks| && blocks[m].role == Tool && blocks[m].content.ToolResult? ==>
         blocks[m].content.id != blocks[n].content.id
  }

  ghost predicate AreKept(blocks: seq<Block>, all: seq<Block>, left: seq<Block>, at: seq<nat>) {
    && |at| == |left| && (forall k :: 0 <= k < |at| ==> at[k] < |blocks| && left[k] == blocks[at[k]])
    && (forall j, k :: 0 <= j < k < |at| ==> at[j] < at[k])
    && (forall n :: 0 <= n < |blocks| <= |all| ==> (n in at <==> !IsUnanswered(all, n)))
  }

  lemma {:induction false} ResolvedIff(blocks: seq<Block>, id: string)
    ensures id in ResolvedIds(blocks) <==> exists m :: 0 <= m < |blocks| && blocks[m].role == Tool &&
                                             blocks[m].content.ToolResult? && blocks[m].content.id == id
  {
    if |blocks| > 0 {
      var n := |blocks| - 1;
      var before := blocks[..n];
      ResolvedIff(before, id);
      forall m | 0 <= m < n ensures before[m] == blocks[m] {
      }
    }
  }

  lemma UnansweredIff(all: seq<Block>, n: nat)
    requires n < |all|
    ensures IsUnanswered(all, n) <==> IsCall(all[n]) && all[n].content.id !in ResolvedIds(all)
  {
    if IsCall(all[n]) {
      ResolvedIff(all, all[n].content.id);
    }
  }

  lemma AnsweredSnoc(before: seq<Block>, b: Block, resolved: set<string>)
    ensures Answered(before + [b], resolved) ==
            if IsCall(b) && b.content.id !in resolved then Answered(before, resolved)
               else Answered(before, resolved) + [b]
  {
    assert (before + [b])[..|before|] == before;
    assert Answered(before, resolved) + [] == Answered(before, resolved);
  }

  lemma AnsweredNext(blocks: seq<Block>, all: seq<Block>, n: nat)
    requires n < |blocks| <= |all| && blocks == all[..|blocks|]
    ensures Answered(blocks[..n + 1], ResolvedIds(all)) ==
            if IsUnanswered(all, n) then Answered(blocks[..n], ResolvedIds(all))
            else Answered(blocks[..n], ResolvedIds(all)) + [blocks[n]]
  {
    UnansweredIff(all, n);
    AnsweredSnoc(blocks[..n], blocks[n], ResolvedIds(all));
    assert blocks[..n + 1] == blocks[..n] + [blocks[n]];
  }

  lemma {:induction false} KeptPlaces(blocks: seq<Block>, all: seq<Block>) returns (at: seq<nat>)
    requires |blocks| <= |all| && blocks == all[..|blocks|]
    ensures AreKept(blocks, all, Answered(blocks, ResolvedIds(all)), at)
  {
    at := [];
    if |blocks| > 0 {
      var n := |blocks| - 1;
      var before := KeptPlaces(blocks[..n], all);
      AnsweredNext(blocks, all, n);
      at := if IsUnanswered(all, n) then before else before + [n];
      OnePlaceMore(blocks, all, Answered(blocks[..n], ResolvedIds(all)), before);
      assert blocks[..n + 1] == blocks;
    }
  }

  lemma OnePlaceMore(blocks: seq<Block>, all: seq<Block>, left: seq<Block>, at: seq<nat>)
    requires 0 < |blocks| <= |all| && AreKept(blocks[..|blocks| - 1], all, left, at)
    ensures var n := |blocks| - 1;
            if IsUnanswered(all, n) then AreKept(blocks, all, left, at)
               else AreKept(blocks, all, left + [blocks[n]], at + [n])
  {
    var n := |blocks| - 1;
    var more := at + [n];
    forall k | 0 <= k < |blocks| ensures k in more <==> k in at || k == n {
      assert more[|at|] == n;
    }
  }

  /** Stripping takes out exactly the calls without a result, and leaves all other blocks in their order. */
  lemma StripTakesUnanswered(ms: seq<Message>) returns (at: seq<nat>)
    ensures AreKept(Blocks(ms), Blocks(ms), Blocks(Strip(ms)), at)
  {
    StripRemovesExactlyTheOrphans(ms);
    assert Blocks(ms)[..|Blocks(ms)|] == Blocks(ms);
    at := KeptPlaces(Blocks(ms), Blocks(ms));
  }
}
