/** What a permission request comes to: yes only by a message that says so. */
module PermissionReplies {
  import opened Text
  import opened Gateway

  // ----- Messages that say yes

  /** The same letters, each small or capital. */
  ghost predicate IsUpToCase(s: string, word: string) {
    && |s| == |word|
    && forall k :: 0 <= k < |s| ==> s[k] == word[k] || ('A' <= s[k] <= 'Z' && s[k] as int + 32 == word[k] as int)
  }

  ghost predicate IsYesWord(s: string) {
    IsUpToCase(s, "yes") || IsUpToCase(s, "y") || IsUpToCase(s, "ok") || IsUpToCase(s, "allow") ||
      IsUpToCase(s, "approve")
  }

  /** One of the words, with white space around it. */
  ghost predicate SaysYes(text: string) {
    exists lead, core, trail :: text == lead + core + trail && AllSpace(lead) && AllSpace(trail) && IsYesWord(core)
  }

  ghost predicate IsSmall(word: string) {
    forall k :: 0 <= k < |word| ==> 'a' <= word[k] <= 'z'
  }

  lemma LowerIsWordIff(s: string, word: string)
    requires IsSmall(word)
    ensures Lower(s) == word <==> IsUpToCase(s, word)
    ensures IsUpToCase(s, word) ==> IsCore(s)
  {
    if IsUpToCase(s, word) {
      assert forall k :: 0 <= k < |s| ==> Lower(s)[k] == word[k];
    }
  }

  lemma YesWordIff(s: string)
    ensures Lower(s) in YES_WORDS <==> IsYesWord(s)
    ensures IsYesWord(s) ==> IsCore(s)
  {
    var yes, y, ok, allow, approve := "yes", "y", "ok", "allow", "approve";
    assert IsSmall(yes) && IsSmall(y) && IsSmall(ok) && IsSmall(allow) && IsSmall(approve);
    LowerIsWordIff(s, yes);
    LowerIsWordIff(s, y);
    LowerIsWordIff(s, ok);
    LowerIsWordIff(s, allow);
    LowerIsWordIff(s, approve);
  }

  /** A message allows exactly when it says yes; every other one rejects. */
  lemma AllowsIff(text: string)
    ensures Decide(text) == AllowOnce <==> SaysYes(text)
  {
    var lead, core, trail := StripParts(text);
    YesWordIff(core);
    if SaysYes(text) {
      var lead', core', trail' :| text == lead' + core' + trail' && AllSpace(lead') && AllSpace(trail') &&
        IsYesWord(core');
      YesWordIff(core');
      StripIsCore(lead', core', trail');
    }
  }

  // ----- Over every run

  /** Who resolved a request, and with what: a message of its key by what it says, the shutdown by rejecting. */
  ghost predicate IsDecidedRightly(handlers: map<int, Handler>, future: Future) {
    match future.outcome
    case Unresolved => true
    case Resolved(decision, Shutdown) => decision == Reject
    case Resolved(decision, Reply(id)) =>
      && id in handlers && future.owner in handlers && handlers[id].key == handlers[future.owner].key
      && (decision == AllowOnce <==> SaysYes(handlers[id].text))
  }

  ghost predicate AllDecidedRightly(s: State) {
    forall f :: 0 <= f < |s.futures| ==> IsDecidedRightly(s.handlers, s.futures[f])
  }

  /** Handlers keep their key and their text. */
  ghost predicate SameMessages(before: map<int, Handler>, after: map<int, Handler>) {
    forall id :: id in before ==> id in after && after[id].key == before[id].key && after[id].text == before[id].text
  }

  lemma StepKeepsMessages(s: State, step: Step)
    requires Enabled(s, step)
    ensures SameMessages(s.handlers, Do(s, step).handlers)
  {
    if !step.Stop? && !step.Arrive? {
      MovesToPc(s, step);
    }
  }

  lemma OnlyArrivalsAdd(s: State, step: Step, id: int)
    requires Enabled(s, step) && id !in s.handlers && id in Do(s, step).handlers
    ensures step == Arrive(id, Do(s, step).handlers[id].key, Do(s, step).handlers[id].text)
  {
    if !step.Stop? && !step.Arrive? {
      MovesToPc(s, step);
    }
  }

  lemma ReplyDecides(s: State, id: int)
    requires FuturesConsistent(s) && AllDecidedRightly(s) && AtPc(s, id, Arrived) && s.handlers[id].key in s.pending
    ensures AllDecidedRightly(Do(s, Check(id)))
  {
    var s', key := Do(s, Check(id)), s.handlers[id].key;
    assert Registered(s.handlers, s.futures, key, s.pending[key]);
    AllowsIff(s.handlers[id].text);
    forall f | 0 <= f < |s'.futures| ensures IsDecidedRightly(s'.handlers, s'.futures[f]) {
      assert IsDecidedRightly(s.handlers, s.futures[f]);
    }
  }

  lemma StepDecides(s: State, step: Step)
    requires FuturesConsistent(s) && AllDecidedRightly(s) && Enabled(s, step)
    ensures AllDecidedRightly(Do(s, step))
  {
    if step.Check? && s.handlers[step.id].key in s.pending {
      ReplyDecides(s, step.id);
    } else {
      var s' := Do(s, step);
      StepKeepsMessages(s, step);
      forall f | 0 <= f < |s'.futures| ensures IsDecidedRightly(s'.handlers, s'.futures[f]) {
        assert f < |s.futures| ==> IsDecidedRightly(s.handlers, s.futures[f]);
      }
    }
  }

  lemma {:induction false} RunDecides(s: State, steps: seq<Step>)
    requires FuturesConsistent(s) && AllDecidedRightly(s) && IsRun(s, steps)
    ensures AllDecidedRightly(Exec(s, steps))
    decreases |steps|
  {
    if |steps| > 0 {
      StepKeepsFutures(s, steps[0]);
      StepDecides(s, steps[0]);
      RunDecides(Do(s, steps[0]), steps[1..]);
    }
  }

  /** The message of each handler is one that arrived with that key and text. */
  lemma {:induction false} MessagesArrived(s: State, steps: seq<Step>, id: int) returns (i: nat)
    requires IsRun(s, steps) && id !in s.handlers && id in Exec(s, steps).handlers
    ensures var h := Exec(s, steps).handlers[id]; i < |steps| && steps[i] == Arrive(id, h.key, h.text)
    decreases |steps|
  {
    var s' := Do(s, steps[0]);
    if id in s'.handlers {
      i := 0;
      OnlyArrivalsAdd(s, steps[0], id);
      MessagesStay(s', steps[1..], id);
    } else {
      i := MessagesArrived(s', steps[1..], id);
      i := i + 1;
    }
  }

  lemma {:induction false} MessagesStay(s: State, steps: seq<Step>, id: int)
    requires IsRun(s, steps) && id in s.handlers
    ensures var h := Exec(s, steps).handlers;
            id in h && h[id].key == s.handlers[id].key && h[id].text == s.handlers[id].text
    decreases |steps|
  {
    if |steps| > 0 {
      StepKeepsMessages(s, steps[0]);
      MessagesStay(Do(s, steps[0]), steps[1..], id);
    }
  }

  /**
   * Over every run: a request is allowed exactly when a message of its key that says yes has answered it. Whatever else
   * resolves it, another message or the shutdown, rejects it.
   */
  lemma AllowedIffYes(table: map<Key, string>, steps: seq<Step>, f: nat) returns (i: nat, owner: nat)
    requires IsRun(Start(table), steps) && f < |Exec(Start(table), steps).futures|
    requires Exec(Start(table), steps).futures[f].outcome.Resolved?
    ensures var outcome := Exec(Start(table), steps).futures[f].outcome;
            if outcome.who.Shutdown? then outcome.decision == Reject
            else
              && i < |steps| && steps[i].Arrive? && outcome.who == Reply(steps[i].id)
              && owner < |steps| && steps[owner].Arrive?
              && steps[owner].id == Exec(Start(table), steps).futures[f].owner
              && steps[i].key == steps[owner].key
              && outcome.decision == if SaysYes(steps[i].text) then AllowOnce else Reject
  {
    var s := Exec(Start(table), steps);
    RunDecides(Start(table), steps);
    assert IsDecidedRightly(s.handlers, s.futures[f]);
    i, owner := 0, 0;
    if s.futures[f].outcome.who.Reply? {
      i := MessagesArrived(Start(table), steps, s.futures[f].outcome.who.handler);
      owner := MessagesArrived(Start(table), steps, s.futures[f].owner);
    }
  }
}
