/** A session's transcript over appends, failed writes and restarts: which entries a later reader gets. */
module TranscriptCrashes {
  import opened Transcript
  import opened TranscriptRuns
  import opened Options

  /** How much of an entry's line a failed write still put into the file. */
  datatype Part = Nothing | Fraction | AllButLineEnd

  /** An entry as it is given to the writer. */
  datatype Draft = Draft(uuid: string, timestamp: string, payload: Payload)

  /** A crash while writing is a failed write followed by a restart. */
  datatype Step =
    | Append(draft: Draft)
    | FailedAppend(draft: Draft, part: Part)
    | Restart

  function Linked(draft: Draft, parent: Option<string>): Entry {
    Entry(draft.uuid, parent, draft.timestamp, draft.payload)
  }

  // ----- What happens to the file

  datatype State = State(log: Log, lastUuid: Option<string>)

  function TornTail(tail: Tail, entry: Entry, part: Part): Tail {
    match part
    case Nothing => tail
    case Fraction => Fragment
    case AllButLineEnd => if tail.Clean? then Unterminated(entry) else Fragment
  }

  /** The writer takes the uuid before it writes, so it keeps it when the write fails. */
  function Next(s: State, step: Step): State {
    match step
    case Append(draft) => State(AppendLine(s.log, Linked(draft, s.lastUuid)), Some(draft.uuid))
    case FailedAppend(draft, part) =>
      State(Log(s.log.lines, TornTail(s.log.tail, Linked(draft, s.lastUuid), part)), Some(draft.uuid))
    case Restart => s.(lastUuid := EndOf(ChainOf(ReadAll(s.log))))
  }

  function After(steps: seq<Step>): State {
    if |steps| == 0 then State(Log([], Clean), None)
    else Next(After(steps[..|steps| - 1]), steps[|steps| - 1])
  }

  // ----- What a reader gets

  /** The chain of the complete lines, with what follows them and the writer's last uuid. */
  datatype History = History(chain: seq<Entry>, tail: Tail, lastUuid: Option<string>)

  /** An entry goes on from the chain when it was linked to its end, and otherwise starts a new one. */
  function Extend(chain: seq<Entry>, entry: Entry): seq<Entry> {
    if entry.parent == EndOf(chain) then chain + [entry] else [entry]
  }

  function Shown(h: History): seq<Entry> {
    if h.tail.Unterminated? then Extend(h.chain, h.tail.entry) else h.chain
  }

  function NextHistory(h: History, step: Step): History {
    match step
    case Append(draft) =>
      History(if h.tail.Clean? then Extend(h.chain, Linked(draft, h.lastUuid)) else h.chain, Clean, Some(draft.uuid))
    case FailedAppend(draft, part) =>
      History(h.chain, TornTail(h.tail, Linked(draft, h.lastUuid), part), Some(draft.uuid))
    case Restart => h.(lastUuid := EndOf(Shown(h)))
  }

  function HistoryAfter(steps: seq<Step>): History {
    if |steps| == 0 then History([], Clean, None)
    else NextHistory(HistoryAfter(steps[..|steps| - 1]), steps[|steps| - 1])
  }

  // ----- The reader gets exactly that

  function UuidOf(step: Step): Option<string> {
    if step.Restart? then None else Some(step.draft.uuid)
  }

  function UuidsOf(steps: seq<Step>): set<string> {
    if |steps| == 0 then {}
    else
      var step := steps[|steps| - 1];
      UuidsOf(steps[..|steps| - 1]) + if UuidOf(step).Some? then {UuidOf(step).value} else {}
  }

  /** No two entries of the run get the same uuid, and none an empty one. */
  ghost predicate OwnUuids(steps: seq<Step>) {
    |steps| > 0 ==>
      var before, step := steps[..|steps| - 1], steps[|steps| - 1];
      OwnUuids(before) && (UuidOf(step).Some? ==> UuidOf(step).value != "" && UuidOf(step).value !in UuidsOf(before))
  }

  ghost predicate IsUsed(e: Entry, used: set<string>) {
    e.uuid in used && (e.parent.Some? ==> e.parent.value in used)
  }

  /** The uuid is neither an entry's own nor the one it is linked to. */
  ghost predicate IsNewTo(entries: seq<Entry>, uuid: string) {
    forall i :: 0 <= i < |entries| ==> entries[i].uuid != uuid && entries[i].parent != Some(uuid)
  }

  ghost predicate EndsInChain(entries: seq<Entry>, chain: seq<Entry>) {
    && HaveOwnUuids(entries) && |chain| <= |entries| && chain == entries[|entries| - |chain|..]
    && (|entries| > 0 ==> |chain| > 0 && LinkedFrom(entries, |entries| - |chain|))
  }

  /** Nothing but the end of the chain is ever linked to: other uuids are those of entries that were lost. */
  ghost predicate LinksToEndOnly(entries: seq<Entry>, chain: seq<Entry>, e: Entry) {
    && e.uuid != "" && IsNewTo(entries, e.uuid) && e.parent != Some(e.uuid)
    && (e.parent == EndOf(chain) || IsRoot(entries, e))
  }

  ghost predicate AllUsed(entries: seq<Entry>, used: set<string>) {
    forall i :: 0 <= i < |entries| ==> IsUsed(entries[i], used)
  }

  /** What the next entry will be linked to: the end of the chain, or an entry that was lost. */
  ghost predicate LinksOn(entries: seq<Entry>, chain: seq<Entry>, link: Option<string>) {
    link == EndOf(chain) || forall i :: 0 <= i < |entries| ==> link != Some(entries[i].uuid)
  }

  /** `entries` are those of the complete lines. */
  ghost predicate Agrees(entries: seq<Entry>, h: History, used: set<string>) {
    && EndsInChain(entries, h.chain) && AllUsed(entries, used)
    && LinksOn(entries, h.chain, h.lastUuid) && (h.lastUuid.Some? ==> h.lastUuid.value in used)
    && (h.tail.Unterminated? ==> LinksToEndOnly(entries, h.chain, h.tail.entry) && IsUsed(h.tail.entry, used))
  }

  ghost predicate Matches(s: State, h: History, used: set<string>) {
    s.log.tail == h.tail && s.lastUuid == h.lastUuid && Agrees(ReadableIn(s.log.lines), h, used)
  }

  lemma EndIsChain(entries: seq<Entry>, chain: seq<Entry>)
    requires EndsInChain(entries, chain)
    ensures ChainOf(entries) == chain
  {
    if |entries| > 0 {
      LinkedEndIsChain(entries, |entries| - |chain|);
    }
  }

  /** One more readable entry: the chain at the end of the file is extended, or starts again. */
  lemma ExtendIsEnd(entries: seq<Entry>, chain: seq<Entry>, e: Entry)
    requires EndsInChain(entries, chain) && LinksToEndOnly(entries, chain, e)
    ensures EndsInChain(entries + [e], Extend(chain, e))
  {
    if e.parent == EndOf(chain) && |chain| > 0 {
      LongerEnd(entries, chain, e, |entries| - |chain|);
    } else {
      assert |chain| == 0 ==> |entries| == 0;
      NewEnd(entries, e);
      assert Extend(chain, e) == [e];
    }
  }

  lemma NewEnd(entries: seq<Entry>, e: Entry)
    requires HaveOwnUuids(entries) && IsRoot(entries, e)
    requires e.uuid != "" && IsNewTo(entries, e.uuid) && e.parent != Some(e.uuid)
    ensures EndsInChain(entries + [e], [e])
  {
    var n, entries' := |entries|, entries + [e];
    assert entries'[n..] == [e] && entries'[n] == e;
    assert IsRoot(entries', e);
    assert LinkedFrom(entries', n);
  }

  lemma LongerEnd(entries: seq<Entry>, chain: seq<Entry>, e: Entry, k: nat)
    requires HaveOwnUuids(entries) && k < |entries| && chain == entries[k..] && LinkedFrom(entries, k)
    requires e.uuid != "" && IsNewTo(entries, e.uuid) && e.parent == Some(chain[|chain| - 1].uuid)
    ensures EndsInChain(entries + [e], chain + [e])
  {
    var n, entries' := |entries|, entries + [e];
    forall i | i > k ensures FollowsAt(entries', i) {
      assert i < n ==> FollowsAt(entries, i);
      assert i == n ==> entries'[i - 1] == chain[|chain| - 1];
    }
    assert entries'[k] == entries[k] && IsRoot(entries, entries[k]);
    assert IsRoot(entries', entries'[k]);
    assert entries'[k..] == chain + [e];
  }

  lemma NewLinksToEnd(entries: seq<Entry>, h: History, used: set<string>, draft: Draft)
    requires Agrees(entries, h, used) && draft.uuid != "" && draft.uuid !in used
    ensures LinksToEndOnly(entries, h.chain, Linked(draft, h.lastUuid))
    ensures IsUsed(Linked(draft, h.lastUuid), used + {draft.uuid})
  {
    forall i | 0 <= i < |entries| ensures entries[i].uuid != draft.uuid && entries[i].parent != Some(draft.uuid) {
      assert IsUsed(entries[i], used);
    }
  }

  lemma MoreAreUsed(entries: seq<Entry>, used: set<string>, uuid: string)
    requires AllUsed(entries, used)
    ensures AllUsed(entries, used + {uuid})
  {
    forall i | 0 <= i < |entries| ensures IsUsed(entries[i], used + {uuid}) {
      assert IsUsed(entries[i], used);
    }
  }

  lemma NewLink(entries: seq<Entry>, chain: seq<Entry>, used: set<string>, uuid: string)
    requires AllUsed(entries, used) && uuid !in used
    ensures LinksOn(entries, chain, Some(uuid))
  {
    forall i | 0 <= i < |entries| ensures Some(uuid) != Some(entries[i].uuid) {
      assert IsUsed(entries[i], used);
    }
  }

  /** The reader gets what the history says. */
  lemma ShownIsRead(s: State, h: History, used: set<string>)
    requires Matches(s, h, used)
    ensures ChainOf(ReadAll(s.log)) == Shown(h)
  {
    ShownIsChain(ReadableIn(s.log.lines), h, used);
  }

  lemma ShownIsChain(entries: seq<Entry>, h: History, used: set<string>)
    requires Agrees(entries, h, used)
    ensures ChainOf(entries + if h.tail.Unterminated? then [h.tail.entry] else []) == Shown(h)
  {
    if h.tail.Unterminated? {
      ExtendIsEnd(entries, h.chain, h.tail.entry);
      EndIsChain(entries + [h.tail.entry], Shown(h));
    } else {
      assert entries + [] == entries;
      EndIsChain(entries, h.chain);
    }
  }

  lemma EndOfExtended(chain: seq<Entry>, e: Entry)
    ensures EndOf(Extend(chain, e)) == Some(e.uuid)
  {
  }

  lemma EndIsUsed(entries: seq<Entry>, chain: seq<Entry>, used: set<string>)
    requires EndsInChain(entries, chain) && AllUsed(entries, used)
    ensures EndOf(chain).Some? ==> EndOf(chain).value in used
  {
    if |chain| > 0 {
      var last := |entries| - 1;
      assert chain[|chain| - 1] == entries[last] && IsUsed(entries[last], used);
    }
  }

  lemma ShownEndIsUsed(entries: seq<Entry>, h: History, used: set<string>)
    requires Agrees(entries, h, used)
    ensures EndOf(Shown(h)).Some? ==> EndOf(Shown(h)).value in used
  {
    if h.tail.Unterminated? {
      EndOfExtended(h.chain, h.tail.entry);
    } else {
      EndIsUsed(entries, h.chain, used);
    }
  }

  /** A restart: the writer goes on from the end of what is read. */
  lemma RestartAgrees(entries: seq<Entry>, h: History, used: set<string>)
    requires Agrees(entries, h, used)
    ensures Agrees(entries, NextHistory(h, Restart), used)
  {
    ShownEndIsUsed(entries, h, used);
    if h.tail.Unterminated? {
      EndOfExtended(h.chain, h.tail.entry);
    }
  }

  /** An entry on a line of its own. */
  lemma AppendAgrees(entries: seq<Entry>, h: History, used: set<string>, draft: Draft)
    requires Agrees(entries, h, used) && h.tail.Clean? && draft.uuid != "" && draft.uuid !in used
    ensures Agrees(entries + [Linked(draft, h.lastUuid)], NextHistory(h, Append(draft)), used + {draft.uuid})
  {
    var e := Linked(draft, h.lastUuid);
    NewLinksToEnd(entries, h, used, draft);
    ExtendIsEnd(entries, h.chain, e);
    EndOfExtended(h.chain, e);
    MoreAreUsed(entries, used, draft.uuid);
  }

  /** An entry that lands on a torn line. */
  lemma LostAppendAgrees(entries: seq<Entry>, h: History, used: set<string>, draft: Draft)
    requires Agrees(entries, h, used) && !h.tail.Clean? && draft.uuid !in used
    ensures Agrees(entries, NextHistory(h, Append(draft)), used + {draft.uuid})
  {
    MoreAreUsed(entries, used, draft.uuid);
    NewLink(entries, h.chain, used, draft.uuid);
  }

  lemma FailedAppendAgrees(entries: seq<Entry>, h: History, used: set<string>, draft: Draft, part: Part)
    requires Agrees(entries, h, used) && draft.uuid != "" && draft.uuid !in used
    ensures Agrees(entries, NextHistory(h, FailedAppend(draft, part)), used + {draft.uuid})
  {
    NewLinksToEnd(entries, h, used, draft);
    MoreAreUsed(entries, used, draft.uuid);
    NewLink(entries, h.chain, used, draft.uuid);
  }

  lemma AppendMatches(s: State, h: History, used: set<string>, draft: Draft)
    requires Matches(s, h, used) && draft.uuid != "" && draft.uuid !in used
    ensures Matches(Next(s, Append(draft)), NextHistory(h, Append(draft)), used + {draft.uuid})
  {
    var lines, e := s.log.lines, Linked(draft, h.lastUuid);
    if h.tail.Clean? {
      ReadableSnoc(lines, Readable(e));
      AppendAgrees(ReadableIn(lines), h, used, draft);
    } else {
      ReadableSnoc(lines, Unreadable);
      LostAppendAgrees(ReadableIn(lines), h, used, draft);
    }
  }

  lemma RestartMatches(s: State, h: History, used: set<string>)
    requires Matches(s, h, used)
    ensures Matches(Next(s, Restart), NextHistory(h, Restart), used)
  {
    ShownIsRead(s, h, used);
    RestartAgrees(ReadableIn(s.log.lines), h, used);
  }

  lemma StepMatches(s: State, h: History, used: set<string>, step: Step)
    requires Matches(s, h, used) && (!step.Restart? ==> step.draft.uuid != "" && step.draft.uuid !in used)
    ensures Matches(Next(s, step), NextHistory(h, step), used + if step.Restart? then {} else {step.draft.uuid})
  {
    match step
    case Append(draft) => AppendMatches(s, h, used, draft);
    case FailedAppend(draft, part) => FailedAppendAgrees(ReadableIn(s.log.lines), h, used, draft, part);
    case Restart =>
      RestartMatches(s, h, used);
      assert used + {} == used;
  }

  /** After every run the file shows a reader exactly what the history says. */
  lemma {:induction false} RunMatches(steps: seq<Step>)
    requires OwnUuids(steps)
    ensures Matches(After(steps), HistoryAfter(steps), UuidsOf(steps))
  {
    if |steps| > 0 {
      var before, step := steps[..|steps| - 1], steps[|steps| - 1];
      RunMatches(before);
      StepMatches(After(before), HistoryAfter(before), UuidsOf(before), step);
    }
  }

  lemma ReaderGetsHistory(steps: seq<Step>)
    requires OwnUuids(steps)
    ensures ChainOf(ReadAll(After(steps).log)) == Shown(HistoryAfter(steps))
  {
    RunMatches(steps);
    ShownIsRead(After(steps), HistoryAfter(steps), UuidsOf(steps));
  }

  // ----- Runs without failures

  /** The drafts as they are stored, the first linked to `first` and each other to the one before. */
  function Chained(first: Option<string>, drafts: seq<Draft>): seq<Entry> {
    if |drafts| == 0 then []
    else
      var n := |drafts| - 1;
      Chained(first, drafts[..n]) + [Linked(drafts[n], if n == 0 then first else Some(drafts[n - 1].uuid))]
  }

  function Drafts(steps: seq<Step>): seq<Draft> {
    if |steps| == 0 then []
    else
      var step := steps[|steps| - 1];
      Drafts(steps[..|steps| - 1]) + if step.Restart? then [] else [step.draft]
  }

  ghost predicate NoFailures(steps: seq<Step>) {
    forall i :: 0 <= i < |steps| ==> !steps[i].FailedAppend?
  }

  lemma {:induction false} ChainedEnd(first: Option<string>, drafts: seq<Draft>)
    ensures |Chained(first, drafts)| == |drafts|
    ensures EndOf(Chained(first, drafts)) == if |drafts| == 0 then None else Some(drafts[|drafts| - 1].uuid)
  {
    if |drafts| > 0 {
      ChainedEnd(first, drafts[..|drafts| - 1]);
    }
  }

  lemma {:induction false} HistoryWithoutFailures(steps: seq<Step>)
    requires NoFailures(steps)
    ensures HistoryAfter(steps) == History(Chained(None, Drafts(steps)), Clean, EndOf(Chained(None, Drafts(steps))))
  {
    if |steps| > 0 {
      var before, step := steps[..|steps| - 1], steps[|steps| - 1];
      HistoryWithoutFailures(before);
      var drafts := Drafts(before);
      ChainedEnd(None, drafts);
      if step.Append? {
        var drafts' := drafts + [step.draft];
        assert drafts'[..|drafts|] == drafts;
        ChainedEnd(None, drafts');
      } else {
        assert drafts + [] == drafts;
      }
    }
  }

  /**
   * However a run of appends is split over writers, each resumed from what the one before left, reading back gives
   * exactly the appended entries in order, each linked to the one before.
   */
  lemma ResumedWritersKeepEverything(steps: seq<Step>)
    requires OwnUuids(steps) && NoFailures(steps)
    ensures ChainOf(ReadAll(After(steps).log)) == Chained(None, Drafts(steps))
  {
    ReaderGetsHistory(steps);
    HistoryWithoutFailures(steps);
  }

  // ----- A failed write

  function Appends(drafts: seq<Draft>): seq<Step> {
    seq(|drafts|, i requires 0 <= i < |drafts| => Append(drafts[i]))
  }

  /** What appends add to a history, depending on whether the file ends cleanly and the writer knows its end. */
  function WithAppends(h: History, drafts: seq<Draft>): History {
    if |drafts| == 0 then h
    else
      History(
        if !h.tail.Clean? then
          if |drafts| == 1 then h.chain else Chained(Some(drafts[0].uuid), drafts[1..])
        else (if h.lastUuid == EndOf(h.chain) then h.chain else []) + Chained(h.lastUuid, drafts),
        Clean,
        Some(drafts[|drafts| - 1].uuid))
  }

  lemma HistorySnoc(steps: seq<Step>, before: seq<Step>, step: Step)
    requires steps == before + [step]
    ensures HistoryAfter(steps) == NextHistory(HistoryAfter(before), step)
  {
    assert steps[..|steps| - 1] == before;
  }

  lemma AppendsSnoc(base: seq<Step>, front: seq<Draft>, last: Draft)
    ensures base + Appends(front + [last]) == base + Appends(front) + [Append(last)]
  {
    assert Appends(front + [last]) == Appends(front) + [Append(last)];
  }

  lemma {:induction false} AppendsShow(base: seq<Step>, h: History, drafts: seq<Draft>)
    requires h == HistoryAfter(base)
    requires forall i :: 0 <= i < |drafts| ==> EndOf(h.chain) != Some(drafts[i].uuid)
    ensures HistoryAfter(base + Appends(drafts)) == WithAppends(h, drafts)
  {
    if |drafts| == 0 {
      assert base + Appends(drafts) == base;
    } else {
      var n := |drafts| - 1;
      var front, last := drafts[..n], drafts[n];
      AppendsShow(base, h, front);
      AppendsSnoc(base, front, last);
      assert drafts == front + [last];
      HistorySnoc(base + Appends(drafts), base + Appends(front), Append(last));
      OneMoreAppend(h, drafts, front, last);
    }
  }

  /** The uuid that the next entry is linked to. */
  function LinkAfter(first: Option<string>, drafts: seq<Draft>): Option<string> {
    if |drafts| == 0 then first else Some(drafts[|drafts| - 1].uuid)
  }

  lemma ChainedSnoc(first: Option<string>, front: seq<Draft>, last: Draft)
    ensures Chained(first, front + [last]) == Chained(first, front) + [Linked(last, LinkAfter(first, front))]
    ensures |front| > 0 ==> EndOf(Chained(first, front)) == LinkAfter(first, front)
  {
    assert (front + [last])[..|front|] == front;
    ChainedEnd(first, front);
  }

  lemma OneMoreAppend(h: History, drafts: seq<Draft>, front: seq<Draft>, last: Draft)
    requires drafts == front + [last]
    requires forall i :: 0 <= i < |drafts| ==> EndOf(h.chain) != Some(drafts[i].uuid)
    ensures NextHistory(WithAppends(h, front), Append(last)) == WithAppends(h, drafts)
  {
    if h.tail.Clean? {
      OneMoreAppendToClean(h, front, last);
    } else if |front| > 0 {
      ChainedSnoc(Some(drafts[0].uuid), front[1..], last);
      assert drafts[1..] == front[1..] + [last] && drafts[0] == front[0];
      assert EndOf(h.chain) != Some(drafts[0].uuid);
    }
  }

  lemma OneMoreAppendToClean(h: History, front: seq<Draft>, last: Draft)
    requires h.tail.Clean?
    ensures NextHistory(WithAppends(h, front), Append(last)) == WithAppends(h, front + [last])
  {
    var kept := if h.lastUuid == EndOf(h.chain) then h.chain else [];
    var chained, e := Chained(h.lastUuid, front), Linked(last, LinkAfter(h.lastUuid, front));
    ChainedSnoc(h.lastUuid, front, last);
    assert (kept + chained) + [e] == kept + (chained + [e]);
    if |front| == 0 {
      assert kept + [e] == Extend(h.chain, e);
      assert chained + [e] == [e];
    } else {
      assert (kept + chained)[|kept| + |chained| - 1] == chained[|chained| - 1];
    }
  }

  /** What a reader gets once a write failed, the writer was replaced or not, and more was appended. */
  function AfterFailure(kept: seq<Entry>, draft: Draft, part: Part, restarted: bool, drafts: seq<Draft>): seq<Entry> {
    if |drafts| == 0 then kept + if part.AllButLineEnd? then [Linked(draft, EndOf(kept))] else []
    else if part.Nothing? then
      if restarted then kept + Chained(EndOf(kept), drafts) else Chained(Some(draft.uuid), drafts)
    else if |drafts| == 1 then kept
    else Chained(Some(drafts[0].uuid), drafts[1..])
  }

  /** The history when a write has just failed after a run without failures that left `kept`. */
  function FailedHistory(kept: seq<Entry>, draft: Draft, part: Part, restarted: bool): History {
    var h := NextHistory(History(kept, Clean, EndOf(kept)), FailedAppend(draft, part));
    if restarted then NextHistory(h, Restart) else h
  }

  lemma AppendsAfterFailure(kept: seq<Entry>, draft: Draft, part: Part, restarted: bool, drafts: seq<Draft>)
    requires EndOf(kept) != Some(draft.uuid)
    ensures Shown(WithAppends(FailedHistory(kept, draft, part, restarted), drafts)) ==
            AfterFailure(kept, draft, part, restarted, drafts)
  {
    assert kept + [] == kept;
    var chained := Chained(Some(draft.uuid), drafts);
    assert [] + chained == chained;
  }

  lemma {:induction false} LaterUuidsAreNew(before: seq<Step>, more: seq<Step>, i: nat)
    requires OwnUuids(before + more)
    ensures OwnUuids(before)
    ensures i < |more| && UuidOf(more[i]).Some? ==> UuidOf(more[i]).value !in UuidsOf(before)
    ensures UuidsOf(before) <= UuidsOf(before + more)
  {
    if |more| == 0 {
      assert before + more == before;
    } else {
      var n := |more| - 1;
      assert (before + more)[..|before| + n] == before + more[..n];
      LaterUuidsAreNew(before, more[..n], i);
    }
  }

  lemma EndIsNotNew(before: seq<Step>, more: seq<Step>, i: nat)
    requires NoFailures(before) && OwnUuids(before + more)
    ensures i < |more| && UuidOf(more[i]).Some? ==> UuidOf(more[i]) != EndOf(Chained(None, Drafts(before)))
  {
    LaterUuidsAreNew(before, more, i);
    RunMatches(before);
    HistoryWithoutFailures(before);
    ShownEndIsUsed(ReadableIn(After(before).log.lines), HistoryAfter(before), UuidsOf(before));
  }

  lemma DraftIsNew(before: seq<Step>, failure: seq<Step>, drafts: seq<Draft>, i: nat)
    requires NoFailures(before) && OwnUuids(before + failure + Appends(drafts)) && i < |drafts|
    ensures EndOf(Chained(None, Drafts(before))) != Some(drafts[i].uuid)
  {
    var more := failure + Appends(drafts);
    assert before + failure + Appends(drafts) == before + more;
    assert more[|failure| + i] == Append(drafts[i]);
    EndIsNotNew(before, more, |failure| + i);
  }

  lemma FailedDraftIsNew(before: seq<Step>, failure: seq<Step>, drafts: seq<Draft>, draft: Draft)
    requires NoFailures(before) && OwnUuids(before + failure + Appends(drafts))
    requires |failure| > 0 && UuidOf(failure[0]) == Some(draft.uuid)
    ensures EndOf(Chained(None, Drafts(before))) != Some(draft.uuid)
  {
    var more := failure + Appends(drafts);
    assert before + failure + Appends(drafts) == before + more;
    EndIsNotNew(before, more, 0);
  }

  function FailureSteps(draft: Draft, part: Part, restarted: bool): seq<Step> {
    [FailedAppend(draft, part)] + if restarted then [Restart] else []
  }

  lemma FailureHistory(before: seq<Step>, kept: seq<Entry>, draft: Draft, part: Part, restarted: bool)
    requires HistoryAfter(before) == History(kept, Clean, EndOf(kept))
    ensures HistoryAfter(before + FailureSteps(draft, part, restarted)) == FailedHistory(kept, draft, part, restarted)
  {
    var torn := before + [FailedAppend(draft, part)];
    HistorySnoc(torn, before, FailedAppend(draft, part));
    if restarted {
      HistorySnoc(before + FailureSteps(draft, part, restarted), torn, Restart);
    } else {
      assert before + FailureSteps(draft, part, restarted) == torn;
    }
  }

  /**
   * After a run without failures, one write that fails and any number of appends, exactly this is read back. The
   * next append is lost when it lands on the line the failure left, and the one after that is linked to it: from
   * then on nothing that was written before the failure is read any more.
   */
  lemma FailureLosesHistory(before: seq<Step>, draft: Draft, part: Part, restarted: bool, drafts: seq<Draft>)
    requires NoFailures(before) && OwnUuids(before + FailureSteps(draft, part, restarted) + Appends(drafts))
    ensures ChainOf(ReadAll(After(before + FailureSteps(draft, part, restarted) + Appends(drafts)).log)) ==
            AfterFailure(Chained(None, Drafts(before)), draft, part, restarted, drafts)
  {
    var kept, failure := Chained(None, Drafts(before)), FailureSteps(draft, part, restarted);
    var h := FailedHistory(kept, draft, part, restarted);
    HistoryWithoutFailures(before);
    FailureHistory(before, kept, draft, part, restarted);
    FailedDraftIsNew(before, failure, drafts, draft);
    forall i | 0 <= i < |drafts| ensures EndOf(kept) != Some(drafts[i].uuid) {
      DraftIsNew(before, failure, drafts, i);
    }
    AppendsShow(before + failure, h, drafts);
    AppendsAfterFailure(kept, draft, part, restarted, drafts);
    ReaderGetsHistory(before + failure + Appends(drafts));
  }

  lemma {:induction false} ChainedHead(first: Option<string>, drafts: seq<Draft>)
    ensures |Chained(first, drafts)| == |drafts|
    ensures |drafts| > 0 ==> Chained(first, drafts)[0].parent == first
  {
    if |drafts| > 0 {
      ChainedHead(first, drafts[..|drafts| - 1]);
    }
  }

  // ----- When the history outlives a failure

  function Run(h: History, steps: seq<Step>): History
    decreases |steps|
  {
    if |steps| == 0 then h else Run(NextHistory(h, steps[0]), steps[1..])
  }

  lemma {:induction false} HistoryInParts(before: seq<Step>, more: seq<Step>)
    ensures HistoryAfter(before + more) == Run(HistoryAfter(before), more)
    decreases |more|
  {
    if |more| == 0 {
      assert before + more == before;
    } else {
      var next := before + [more[0]];
      HistorySnoc(next, before, more[0]);
      HistoryInParts(next, more[1..]);
      assert next + more[1..] == before + more;
    }
  }

  /** The file ends with a complete line, and the writer knows the end of the chain. */
  predicate IsInOrder(h: History) {
    h.tail.Clean? && h.lastUuid == EndOf(h.chain)
  }

  lemma {:induction false} OrderKeepsChain(h: History, steps: seq<Step>)
    requires IsInOrder(h) && NoFailures(steps)
    ensures h.chain <= Shown(Run(h, steps))
    decreases |steps|
  {
    if |steps| > 0 {
      var h' := NextHistory(h, steps[0]);
      assert !steps[0].FailedAppend?;
      assert forall i :: 0 <= i < |steps[1..]| ==> steps[1..][i] == steps[i + 1];
      assert h.chain <= h'.chain;
      OrderKeepsChain(h', steps[1..]);
    }
  }

  /** The writer links to an entry that was lost: the next step decides. */
  lemma LostLinkIff(h: History, steps: seq<Step>)
    requires h.tail.Clean? && h.lastUuid.Some? && h.lastUuid != EndOf(h.chain) && NoFailures(steps)
    requires |h.chain| > 0 && h.chain[0].parent.None?
    ensures h.chain <= Shown(Run(h, steps)) <==> |steps| == 0 || steps[0].Restart?
  {
    if |steps| > 0 {
      var h' := NextHistory(h, steps[0]);
      assert !steps[0].FailedAppend?;
      assert forall i :: 0 <= i < |steps[1..]| ==> steps[1..][i] == steps[i + 1];
      OrderKeepsChain(h', steps[1..]);
      if steps[0].Append? {
        assert h'.chain == [Linked(steps[0].draft, h.lastUuid)];
        assert Shown(Run(h, steps))[0] == h'.chain[0];
      }
    }
  }

  /** What happens behind the first append. */
  function BehindAppend(steps: seq<Step>): seq<Step> {
    if |steps| == 0 then [] else if steps[0].Append? then steps[1..] else BehindAppend(steps[1..])
  }

  /** The file ends with a torn line: the next append is lost on it, and then the step after that decides. */
  lemma {:induction false} TornLineIff(h: History, steps: seq<Step>)
    requires !h.tail.Clean? && (h.tail.Unterminated? ==> h.tail.entry.parent == EndOf(h.chain)) && NoFailures(steps)
    requires |h.chain| > 0 && h.chain[0].parent.None?
    requires forall i :: 0 <= i < |steps| && UuidOf(steps[i]).Some? ==> UuidOf(steps[i]) != EndOf(h.chain)
    ensures h.chain <= Shown(Run(h, steps)) <==> |BehindAppend(steps)| == 0 || BehindAppend(steps)[0].Restart?
    decreases |steps|
  {
    if |steps| > 0 {
      var h' := NextHistory(h, steps[0]);
      assert !steps[0].FailedAppend?;
      assert forall i :: 0 <= i < |steps[1..]| ==> steps[1..][i] == steps[i + 1];
      if steps[0].Append? {
        assert UuidOf(steps[0]) != EndOf(h.chain);
        LostLinkIff(h', steps[1..]);
      } else {
        TornLineIff(h', steps[1..]);
      }
    }
  }

  /**
   * What happens behind the entry that a failed write loses: the failed one itself, or the next one, if it left a torn
   * line.
   */
  function BehindLoss(part: Part, later: seq<Step>): seq<Step> {
    if part.Nothing? then later else BehindAppend(later)
  }

  /**
   * After a write that failed, and any appends and restarts, what was written before is still read exactly when
   * nothing happened since the last entry was lost, or a restart came next.
   */
  lemma HistoryIsKeptIff(before: seq<Step>, draft: Draft, part: Part, later: seq<Step>, kept: seq<Entry>)
    requires NoFailures(before) && NoFailures(later) && OwnUuids(before + ([FailedAppend(draft, part)] + later))
    requires kept == ChainOf(ReadAll(After(before).log)) && |kept| > 0
    ensures kept <= ChainOf(ReadAll(After(before + ([FailedAppend(draft, part)] + later)).log)) <==>
            |BehindLoss(part, later)| == 0 || BehindLoss(part, later)[0].Restart?
  {
    var more := [FailedAppend(draft, part)] + later;
    LaterUuidsAreNew(before, more, 0);
    ResumedWritersKeepEverything(before);
    HistoryWithoutFailures(before);
    ChainedHead(None, Drafts(before));
    var h := History(kept, Clean, EndOf(kept));
    ReaderGetsHistory(before + more);
    HistoryInParts(before, more);
    assert more[0] == FailedAppend(draft, part) && more[1..] == later;
    EndIsNotNew(before, more, 0);
    forall i | 0 <= i < |later| && UuidOf(later[i]).Some? ensures UuidOf(later[i]) != EndOf(kept) {
      EndIsNotNew(before, more, i + 1);
    }
    KeptIff(h, draft, part, later);
  }

  lemma KeptIff(h: History, draft: Draft, part: Part, later: seq<Step>)
    requires IsInOrder(h) && NoFailures(later) && |h.chain| > 0 && h.chain[0].parent.None?
    requires EndOf(h.chain) != Some(draft.uuid)
    requires forall i :: 0 <= i < |later| && UuidOf(later[i]).Some? ==> UuidOf(later[i]) != EndOf(h.chain)
    ensures h.chain <= Shown(Run(NextHistory(h, FailedAppend(draft, part)), later)) <==>
            |BehindLoss(part, later)| == 0 || BehindLoss(part, later)[0].Restart?
  {
    var torn := NextHistory(h, FailedAppend(draft, part));
    if part.Nothing? {
      LostLinkIff(torn, later);
    } else {
      TornLineIff(torn, later);
    }
  }
}
