/** A session that goes on and one that is resumed from its transcript see the same history. */
module ResumedHistory {
  import opened Messages
  import opened Conversations
  import opened OrphanStripping
  import opened Rebuild
  import opened Transcript
  import opened Options
  import TranscriptCrashes

  /** What happens in a session that is not compacted, each stored as one entry when it is added to the live history. */
  datatype Event =
    | UserSaid(text: string)
    | AssistantSaid(content: seq<Content>)
    | ToolAnswered(id: string, output: string, isError: bool, synthetic: bool, cancelPhase: Option<string>)
    | Resumed

  /**
   * Each turn of the user begins with stripping what the turns before left unanswered. A resumed session begins with
   * what is rebuilt from all that was recorded, and that is stripped as well.
   */
  function Live(events: seq<Event>): seq<Message>
    decreases |events|, 0
  {
    if |events| == 0 then []
    else Base(events[..|events| - 1], events[|events| - 1]) + Added(events[|events| - 1])
  }

  function Base(before: seq<Event>, event: Event): seq<Message>
    decreases |before|, 1
  {
    match event
    case UserSaid(_) => Strip(Live(before))
    case Resumed => Strip(Plain(before))
    case _ => Live(before)
  }

  function Recorded(events: seq<Event>): seq<Payload> {
    if |events| == 0 then [] else Recorded(events[..|events| - 1]) + RecordOf(events[|events| - 1])
  }

  function RecordOf(event: Event): seq<Payload> {
    match event
    case UserSaid(text) => [UserMessage(text)]
    case AssistantSaid(content) => if |content| == 0 then [] else [AssistantMessage(content)]
    case ToolAnswered(id, output, isError, synthetic, phase) => [ToolCall(id, output, isError, synthetic, phase)]
    case Resumed => []
  }

  /** The messages of the events, with nothing stripped. */
  function Plain(events: seq<Event>): seq<Message> {
    if |events| == 0 then [] else Plain(events[..|events| - 1]) + Added(events[|events| - 1])
  }

  function Added(event: Event): seq<Message> {
    match event
    case UserSaid(text) => [UserText(text)]
    case AssistantSaid(content) => if |content| == 0 then [] else [Message(Assistant, content)]
    case ToolAnswered(id, output, isError, _, _) => [ResultMessage(id, output, isError, [])]
    case Resumed => []
  }

  /** The ids of the calls that were stripped along the way, from the last time on that the session was rebuilt. */
  function StrippedIds(events: seq<Event>): set<string> {
    if |events| == 0 then {}
    else
      var before := events[..|events| - 1];
      match events[|events| - 1]
      case UserSaid(_) => StrippedIds(before) + OrphanIds(Live(before))
      case Resumed => OrphanIds(Plain(before))
      case _ => StrippedIds(before)
  }

  lemma AddedHasContent(event: Event)
    ensures AllHaveContent(Added(event))
  {
  }

  lemma StrippedHasContent(ms: seq<Message>)
    requires AllHaveContent(ms)
    ensures AllHaveContent(Strip(ms))
  {
    StripIsOnePass(ms);
    StripKeepsContent(ms, OrphanIds(ms));
  }

  lemma {:induction false} LiveHasContent(events: seq<Event>)
    ensures AllHaveContent(Live(events)) && AllHaveContent(Plain(events))
  {
    if |events| > 0 {
      var before := events[..|events| - 1];
      LiveHasContent(before);
      StrippedHasContent(Live(before));
      StrippedHasContent(Plain(before));
      AddedHasContent(events[|events| - 1]);
    }
  }

  lemma LiveStep(events: seq<Event>, before: seq<Event>, event: Event)
    requires events == before + [event]
    ensures Live(events) == Base(before, event) + Added(event)
    ensures Plain(events) == Plain(before) + Added(event)
    ensures event.Resumed? ==> StrippedIds(events) == OrphanIds(Plain(before))
    ensures !event.Resumed? ==>
            StrippedIds(events) == StrippedIds(before) + (if event.UserSaid? then OrphanIds(Live(before)) else {})
  {
    assert events[..|events| - 1] == before;
  }

  lemma Associative(a: seq<Message>, b: seq<Message>, c: seq<Message>)
    ensures a + b + c == a + (b + c)
  {
  }

  /** One event more: what it adds may be counted to what comes later instead. */
  lemma StillAgrees(live: seq<Message>, base: seq<Message>, plain: seq<Message>, added: seq<Message>,
                    later: seq<Message>, more: seq<Message>)
    requires base == live || (base == Strip(live) && OrphanIds(live) !! ResolvedIds(Blocks(more)))
    requires AllHaveContent(live) && AllHaveContent(more) && more == added + later
    requires Strip(live + more) == Strip(plain + more)
    ensures Strip(base + added + later) == Strip(plain + added + later)
  {
    Associative(base, added, later);
    Associative(plain, added, later);
    if base != live {
      EarlyStripIsHarmless(live, more);
    }
  }

  /** Whatever comes later, as long as nothing answers a call that was stripped. */
  lemma {:induction false} LiveAgrees(events: seq<Event>, later: seq<Message>)
    requires AllHaveContent(later) && StrippedIds(events) !! ResolvedIds(Blocks(Plain(events) + later))
    ensures Strip(Live(events) + later) == Strip(Plain(events) + later)
  {
    if |events| > 0 {
      var before, event := events[..|events| - 1], events[|events| - 1];
      var more := Added(event) + later;
      LiveStep(events, before, event);
      AddedHasContent(event);
      LiveHasContent(before);
      Associative(Plain(before), Added(event), later);
      IdsOfBoth(Plain(before), more);
      if event.Resumed? {
        StillAgrees(Plain(before), Base(before, event), Plain(before), Added(event), later, more);
      } else {
        LiveAgrees(before, more);
        StillAgrees(Live(before), Base(before, event), Plain(before), Added(event), later, more);
      }
    }
  }

  /** How the answered blocks of a history compare with those of a fuller one. */
  ghost predicate HasFewer(live: seq<Message>, plain: seq<Message>, stripped: set<string>, resolved: set<string>) {
    && ResolvedIds(Blocks(live)) == ResolvedIds(Blocks(plain))
    && |Answered(Blocks(live), resolved)| <= |Answered(Blocks(plain), resolved)|
    && (!(stripped !! resolved) ==> |Answered(Blocks(live), resolved)| < |Answered(Blocks(plain), resolved)|)
  }

  lemma HasFewerWith(live: seq<Message>, plain: seq<Message>, stripped: set<string>, resolved: set<string>,
                     added: seq<Message>)
    requires HasFewer(live, plain, stripped, resolved)
    ensures HasFewer(live + added, plain + added, stripped, resolved)
  {
    IdsOfBoth(plain, added);
    BlocksOfBoth(plain, added);
    AnsweredOfBoth(Blocks(plain), Blocks(added), resolved);
    IdsOfBoth(live, added);
    BlocksOfBoth(live, added);
    AnsweredOfBoth(Blocks(live), Blocks(added), resolved);
  }

  lemma HasFewerStripped(live: seq<Message>, plain: seq<Message>, stripped: set<string>, resolved: set<string>)
    requires HasFewer(live, plain, stripped, resolved) && ResolvedIds(Blocks(plain)) <= resolved
    ensures HasFewer(Strip(live), plain, stripped + OrphanIds(live), resolved)
  {
    StripHasFewer(live, resolved);
  }

  /** Of the live history no more blocks are answered, and fewer once a call that was stripped is. */
  lemma {:induction false} LiveHasFewer(events: seq<Event>, resolved: set<string>)
    requires ResolvedIds(Blocks(Plain(events))) <= resolved
    ensures HasFewer(Live(events), Plain(events), StrippedIds(events), resolved)
  {
    if |events| > 0 {
      var before, event := events[..|events| - 1], events[|events| - 1];
      LiveStep(events, before, event);
      var live, plain := Live(before), Plain(before);
      IdsOfBoth(plain, Added(event));
      if event.Resumed? {
        HasFewerStripped(plain, plain, {}, resolved);
      } else {
        LiveHasFewer(before, resolved);
        HasFewerStripped(live, plain, StrippedIds(before), resolved);
      }
      HasFewerWith(Base(before, event), plain, StrippedIds(events), resolved, Added(event));
    }
  }

  lemma StripHasFewer(ms: seq<Message>, resolved: set<string>)
    requires ResolvedIds(Blocks(ms)) <= resolved
    ensures ResolvedIds(Blocks(Strip(ms))) == ResolvedIds(Blocks(ms))
    ensures |Answered(Blocks(Strip(ms)), resolved)| <= |Answered(Blocks(ms), resolved)|
    ensures !(OrphanIds(ms) !! resolved) ==> |Answered(Blocks(Strip(ms)), resolved)| < |Answered(Blocks(ms), resolved)|
  {
    var before := ResolvedIds(Blocks(ms));
    StripRemovesExactlyTheOrphans(ms);
    AnsweredHasNoOrphan(Blocks(ms), before);
    AnsweredLater(Blocks(ms), before, resolved);
    AnsweredMore(Blocks(ms), before, resolved);
  }

  /**
   * The history that goes on and the one with nothing stripped come to the same, once stripped, exactly when no
   * call that was stripped along the way, and not brought back by a rebuild since, has got a result.
   */
  lemma LiveAgreesIff(events: seq<Event>)
    ensures Strip(Live(events)) == Strip(Plain(events)) <==> StrippedIds(events) !! ResolvedIds(Blocks(Plain(events)))
  {
    var live, plain := Live(events), Plain(events);
    assert live + [] == live && plain + [] == plain;
    if StrippedIds(events) !! ResolvedIds(Blocks(plain)) {
      LiveAgrees(events, []);
    } else {
      LiveHasFewer(events, ResolvedIds(Blocks(plain)));
      StripRemovesExactlyTheOrphans(live);
      StripRemovesExactlyTheOrphans(plain);
    }
  }

  // ----- Rebuilding

  ghost predicate IsTextOrCall(c: Content) {
    c.Text? || c.ToolUse?
  }

  /** What an assistant message holds. */
  ghost predicate AsRecorded(event: Event) {
    event.AssistantSaid? ==> forall i :: 0 <= i < |event.content| ==> IsTextOrCall(event.content[i])
  }

  ghost predicate AllAsRecorded(events: seq<Event>) {
    forall i :: 0 <= i < |events| ==> AsRecorded(events[i])
  }

  /** Cancelled calls are shown as they were, or there are none. */
  ghost predicate ShownAsTheyWere(events: seq<Event>, policy: Policy) {
    policy.Acknowledge? || forall i :: 0 <= i < |events| ==> !(events[i].ToolAnswered? && events[i].synthetic)
  }

  function Payloads(chain: seq<Entry>): seq<Payload> {
    seq(|chain|, i requires 0 <= i < |chain| => chain[i].payload)
  }

  lemma {:induction false} NothingHidden(blocks: seq<Content>)
    requires forall i :: 0 <= i < |blocks| ==> IsTextOrCall(blocks[i])
    ensures Restored(blocks, {}) == blocks
  {
    if |blocks| > 0 {
      assert IsTextOrCall(blocks[|blocks| - 1]);
      NothingHidden(blocks[..|blocks| - 1]);
    }
  }

  lemma FromOneRecorded(entry: Entry, policy: Policy, event: Event)
    requires RecordOf(event) == [entry.payload] && AsRecorded(event)
    requires policy.Acknowledge? || !(event.ToolAnswered? && event.synthetic)
    ensures FromEntry(entry, policy, {}) == Added(event)
    ensures !policy.Acknowledge? ==> !(entry.payload.ToolCall? && entry.payload.synthetic)
  {
    var payload := [entry.payload];
    assert RecordOf(event)[0] == entry.payload;
    if event.AssistantSaid? {
      NothingHidden(event.content);
    }
  }

  lemma {:induction false} FromRecorded(chain: seq<Entry>, policy: Policy, events: seq<Event>)
    requires Payloads(chain) == Recorded(events) && AllAsRecorded(events) && ShownAsTheyWere(events, policy)
    ensures FromEntries(chain, policy, {}) == Plain(events)
    ensures !policy.Acknowledge? ==> HiddenIds(chain) == {}
    decreases |events|
  {
    if |events| == 0 {
      assert |Payloads(chain)| == 0;
    } else {
      var before, event := events[..|events| - 1], events[|events| - 1];
      assert AsRecorded(event) && before + [event] == events;
      if |RecordOf(event)| == 0 {
        NothingRecorded(before, event);
        FromRecorded(chain, policy, before);
      } else {
        var n := |chain| - 1;
        LastPayload(chain, Recorded(before), RecordOf(event));
        FromRecorded(chain[..n], policy, before);
        FromOneRecorded(chain[n], policy, event);
      }
    }
  }

  lemma NothingRecorded(before: seq<Event>, event: Event)
    requires |RecordOf(event)| == 0
    ensures Recorded(before + [event]) == Recorded(before) && Plain(before + [event]) == Plain(before)
  {
    assert (before + [event])[..|before|] == before;
    assert Recorded(before) + [] == Recorded(before) && Plain(before) + [] == Plain(before);
  }

  lemma LastPayload(chain: seq<Entry>, before: seq<Payload>, last: seq<Payload>)
    requires |last| == 1 && Payloads(chain) == before + last
    ensures |chain| > 0 && Payloads(chain[..|chain| - 1]) == before && [chain[|chain| - 1].payload] == last
  {
    var n := |before|;
    assert |Payloads(chain)| == n + 1;
    assert Payloads(chain)[n] == last[0];
    assert Payloads(chain[..n]) == Payloads(chain)[..n];
  }

  /**
   * A session resumed from its entries goes on from the same history as the one that was never interrupted, exactly
   * when no call that was stripped along the way has got a result.
   */
  lemma ResumeRebuildsLiveIff(chain: seq<Entry>, policy: Policy, events: seq<Event>)
    requires Payloads(chain) == Recorded(events) && AllAsRecorded(events) && ShownAsTheyWere(events, policy)
    ensures Strip(Rebuilt(chain, policy)) == Strip(Live(events)) <==>
            StrippedIds(events) !! ResolvedIds(Blocks(Plain(events)))
  {
    FromRecorded(chain, policy, events);
    LiveAgreesIff(events);
  }

  /** So it does from the file that any number of writers left, each resumed from the one before. */
  lemma ResumeFromFileRebuildsLiveIff(steps: seq<TranscriptCrashes.Step>, policy: Policy, events: seq<Event>)
    requires TranscriptCrashes.OwnUuids(steps) && TranscriptCrashes.NoFailures(steps)
    requires Payloads(TranscriptCrashes.Chained(None, TranscriptCrashes.Drafts(steps))) == Recorded(events)
    requires AllAsRecorded(events) && ShownAsTheyWere(events, policy)
    ensures Strip(Rebuilt(ChainOf(ReadAll(TranscriptCrashes.After(steps).log)), policy)) == Strip(Live(events)) <==>
            StrippedIds(events) !! ResolvedIds(Blocks(Plain(events)))
  {
    TranscriptCrashes.ResumedWritersKeepEverything(steps);
    ResumeRebuildsLiveIff(ChainOf(ReadAll(TranscriptCrashes.After(steps).log)), policy, events);
  }

  /** What a resumed session begins with is what is rebuilt, so that resuming it once more changes nothing. */
  lemma ResumedIsRebuilt(chain: seq<Entry>, policy: Policy, events: seq<Event>)
    requires Payloads(chain) == Recorded(events) && AllAsRecorded(events) && ShownAsTheyWere(events, policy)
    ensures Live(events + [Resumed]) == Strip(Rebuilt(chain, policy))
    ensures Payloads(chain) == Recorded(events + [Resumed])
    ensures Strip(Rebuilt(chain, policy)) == Strip(Live(events + [Resumed]))
  {
    FromRecorded(chain, policy, events);
    LiveStep(events + [Resumed], events, Resumed);
    StripLeavesNoOrphan(Plain(events));
    assert (events + [Resumed])[..|events|] == events;
    assert Strip(Plain(events)) + [] == Strip(Plain(events)) && Recorded(events) + [] == Recorded(events);
  }

  lemma CallWithoutResult(text: string, call: Content)
    requires call.ToolUse?
    ensures OrphanIds([UserText(text), Message(Assistant, [call])]) == {call.id}
  {
    var question, answer := [UserText(text)], [Message(Assistant, [call])];
    IdsOfText(text);
    IdsOfBoth(question, answer);
    BlocksOfOne(answer[0]);
    var b := Block(Assistant, call);
    assert BlocksIn(Assistant, [call]) == [b] && [b][..0] == [];
    assert question + answer == [UserText(text), Message(Assistant, [call])];
  }

  /** The first question, the first call with no result, and the next question. */
  function TwoTurns(call: Content): seq<Event> {
    [UserSaid("a"), AssistantSaid([call]), UserSaid("b")]
  }

  lemma LiveOfFirstTurn(call: Content)
    ensures Live([UserSaid("a"), AssistantSaid([call])]) == [UserText("a"), Message(Assistant, [call])]
  {
    var one := [UserSaid("a")];
    LiveStep(one, [], UserSaid("a"));
    LiveStep([UserSaid("a"), AssistantSaid([call])], one, AssistantSaid([call]));
    assert Live(one) == [UserText("a")];
  }

  lemma FirstCallIsStripped(call: Content)
    requires call.ToolUse?
    ensures call.id in StrippedIds(TwoTurns(call))
  {
    var turn := [UserSaid("a"), AssistantSaid([call])];
    LiveOfFirstTurn(call);
    LiveStep(TwoTurns(call), turn, UserSaid("b"));
    CallWithoutResult("a", call);
  }

  /** A call of the second turn has the id of the stripped one, and gets a result. */
  lemma ReusedIdMakesResumeDiffer(call: Content, last: Event)
    requires call.ToolUse? && last.ToolAnswered? && last.id == call.id
    ensures var events := TwoTurns(call) + [AssistantSaid([call])] + [last];
            Strip(Plain(events)) != Strip(Live(events))
  {
    var second := TwoTurns(call) + [AssistantSaid([call])];
    var events := second + [last];
    FirstCallIsStripped(call);
    LiveStep(second, TwoTurns(call), AssistantSaid([call]));
    LiveStep(events, second, last);
    IdsOfBoth(Plain(second), Added(last));
    IdsOfResult(last.id, last.output, last.isError);
    LiveAgreesIff(events);
    assert call.id in StrippedIds(events) && call.id in ResolvedIds(Blocks(Plain(events)));
  }

  /** The empty id is such an id: every call that comes without one gets it. */
  lemma EmptyIdsMakeResumeDiffer()
    ensures var call := ToolUse("", "bash", "");
            var events := TwoTurns(call) + [AssistantSaid([call])] + [ToolAnswered("", "done", false, false, None)];
            Strip(Plain(events)) != Strip(Live(events))
  {
    ReusedIdMakesResumeDiffer(ToolUse("", "bash", ""), ToolAnswered("", "done", false, false, None));
  }

  // ----- Hiding cancelled calls

  /** The ids that have a result that is not made up. */
  function RealIds(chain: seq<Entry>): set<string> {
    if |chain| == 0 then {}
    else
      var p := chain[|chain| - 1].payload;
      RealIds(chain[..|chain| - 1]) + if p.ToolCall? && !p.synthetic then {p.id} else {}
  }

  lemma {:induction false} HiddenAreNotRestored(blocks: seq<Content>, hidden: set<string>)
    ensures CallIdsIn(BlocksIn(Assistant, Restored(blocks, hidden))) !! hidden
  {
    if |blocks| > 0 {
      var n := |blocks| - 1;
      var rest, b := Restored(blocks[..n], hidden), blocks[n];
      HiddenAreNotRestored(blocks[..n], hidden);
      BlocksInSnoc(Assistant, rest + [b], |rest|);
      assert (rest + [b])[..|rest| + 1] == rest + [b] && (rest + [b])[..|rest|] == rest && rest + [] == rest;
    }
  }

  lemma IdsOfText(text: string)
    ensures CallIdsIn(Blocks([UserText(text)])) == {} && ResolvedIds(Blocks([UserText(text)])) == {}
  {
    var b := Block(User, Text(text));
    BlocksOfOne(UserText(text));
    assert Blocks([UserText(text)]) == [b] && [b][..0] == [];
  }

  lemma IdsOfResult(id: string, output: string, isError: bool)
    ensures var blocks := Blocks([ResultMessage(id, output, isError, [])]);
            CallIdsIn(blocks) == {} && ResolvedIds(blocks) == {id}
  {
    var b := Block(Tool, ToolResult(id, output, isError, []));
    BlocksOfOne(ResultMessage(id, output, isError, []));
    assert Blocks([ResultMessage(id, output, isError, [])]) == [b] && [b][..0] == [];
  }

  lemma IdsOfHidingEntry(entry: Entry, hidden: set<string>)
    ensures var blocks := Blocks(FromEntry(entry, Hide, hidden));
            && CallIdsIn(blocks) !! hidden
            && ResolvedIds(blocks) ==
               if entry.payload.ToolCall? && !entry.payload.synthetic then {entry.payload.id} else {}
  {
    match entry.payload
    case UserMessage(content) => IdsOfText(content);
    case CompactBoundary(summary) => IdsOfText(SUMMARY_HEADER + summary);
    case SessionMeta(_, _) =>
    case ToolCall(id, output, isError, _, _) => IdsOfResult(id, output, isError);
    case AssistantMessage(blocks) =>
      var content := Restored(blocks, hidden);
      HiddenAreNotRestored(blocks, hidden);
      BlocksOfOne(Message(Assistant, content));
      NoResults(Assistant, content);
  }

  lemma {:induction false} IdsUnderHide(chain: seq<Entry>, hidden: set<string>)
    ensures CallIdsIn(Blocks(FromEntries(chain, Hide, hidden))) !! hidden
    ensures ResolvedIds(Blocks(FromEntries(chain, Hide, hidden))) == RealIds(chain)
  {
    if |chain| > 0 {
      var n := |chain| - 1;
      IdsUnderHide(chain[..n], hidden);
      IdsOfHidingEntry(chain[n], hidden);
      IdsOfBoth(FromEntries(chain[..n], Hide, hidden), FromEntry(chain[n], Hide, hidden));
    }
  }

  /**
   * Hidden calls leave no trace in the resumed history, neither a call nor a result, exactly when none of them has a
   * real result beside the one that was made up: such a result stays, and its call goes.
   */
  lemma HiddenCallsLeaveNoTraceIff(chain: seq<Entry>)
    ensures CallIdsIn(Blocks(Strip(Rebuilt(chain, Hide)))) !! HiddenIds(chain)
    ensures ResolvedIds(Blocks(Strip(Rebuilt(chain, Hide)))) !! HiddenIds(chain) <==> RealIds(chain) !! HiddenIds(chain)
  {
    var ms := Rebuilt(chain, Hide);
    IdsUnderHide(chain, HiddenIds(chain));
    StripRemovesExactlyTheOrphans(ms);
    AnsweredHasNoOrphan(Blocks(ms), ResolvedIds(Blocks(ms)));
    CallIdsOfAnswered(Blocks(ms), ResolvedIds(Blocks(ms)));
  }

  lemma {:induction false} CallIdsOfAnswered(blocks: seq<Block>, resolved: set<string>)
    ensures CallIdsIn(Answered(blocks, resolved)) <= CallIdsIn(blocks)
  {
    if |blocks| > 0 {
      var n := |blocks| - 1;
      var rest, b := Answered(blocks[..n], resolved), blocks[n];
      CallIdsOfAnswered(blocks[..n], resolved);
      assert (rest + [b])[..|rest|] == rest && rest + [] == rest;
    }
  }

  /** A call with a real result beside a made-up one is hidden, and its real result is not. */
  lemma RealResultOutlivesCall(call: Entry, result: Entry, madeUp: Entry, id: string)
    requires call.payload == AssistantMessage([ToolUse(id, "bash", "")])
    requires result.payload == ToolCall(id, "done", false, false, None)
    requires madeUp.payload == ToolCall(id, "cancelled", true, true, None)
    ensures var blocks := Blocks(Strip(Rebuilt([call, result, madeUp], Hide)));
            id !in CallIdsIn(blocks) && !(ResolvedIds(blocks) !! HiddenIds([call, result, madeUp]))
  {
    var chain := [call, result, madeUp];
    assert chain[..2][..1] == chain[..1] && chain[..2][1] == result;
    assert id in HiddenIds(chain) && id in RealIds(chain[..2]) && id in RealIds(chain);
    HiddenCallsLeaveNoTraceIff(chain);
  }
}
