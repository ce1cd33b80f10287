/** Which messages micro-compaction drops and keeps, told by their blocks. */
module DroppedRounds {
  import opened Messages
  import opened Numerals
  import opened Compaction
  import opened RoundPairing

  // ----- What should be dropped

  predicate IsReadOnlyName(name: string) {
    name == "file_read" || name == "glob" || name == "grep" || name == "web_fetch" || name == "web_search"
  }

  /** The message has a call, and each of its calls names a read-only tool. */
  ghost predicate CallsOnlyReaders(m: Message) {
    && m.role == Assistant
    && (exists k :: 0 <= k < |m.content| && m.content[k].ToolUse?)
    && (forall k :: 0 <= k < |m.content| && m.content[k].ToolUse? ==> IsReadOnlyName(m.content[k].name))
  }

  /** Some result in the message has the id of some call of the other. */
  ghost predicate Answers(results: Message, calls: Message) {
    exists k, c :: 0 <= k < |results.content| && 0 <= c < |calls.content| &&
      results.content[k].ToolResult? && calls.content[c].ToolUse? && results.content[k].id == calls.content[c].id
  }

  /** Message `i` is message `j`, or one of the tool messages behind it that all answer it. */
  ghost predicate IsInRound(messages: seq<Message>, j: nat, i: nat) {
    j <= i < |messages| && forall k :: j < k <= i ==> messages[k].role == Tool && Answers(messages[k], messages[j])
  }

  ghost predicate IsRemoved(messages: seq<Message>, protectedTail: nat, i: nat) {
    && i + protectedTail < |messages|
    && exists j :: 0 <= j <= i && CallsOnlyReaders(messages[j]) && IsInRound(messages, j, i)
  }

  lemma ReadOnlyRoundIff(m: Message)
    ensures IsReadOnlyRound(m) <==> CallsOnlyReaders(m)
  {
    if IsReadOnlyRound(m) {
      var c :| c in Calls(m.content);
      var k :| 0 <= k < |m.content| && m.content[k] == c;
      assert m.content[k].ToolUse?;
      forall k | 0 <= k < |m.content| && m.content[k].ToolUse? ensures IsReadOnlyName(m.content[k].name) {
        assert m.content[k] in Calls(m.content);
      }
    }
    if CallsOnlyReaders(m) {
      var k :| 0 <= k < |m.content| && m.content[k].ToolUse?;
      assert m.content[k] in Calls(m.content);
      forall c | c in Calls(m.content) ensures c.name in READ_ONLY_TOOLS {
        var k :| 0 <= k < |m.content| && m.content[k] == c;
        assert IsReadOnlyName(m.content[k].name);
      }
    }
  }

  lemma AnswersIff(results: Message, calls: Message)
    ensures Answers(results, calls) <==> ResultIds(results.content) * CallIds(calls.content) != {}
  {
    var both := ResultIds(results.content) * CallIds(calls.content);
    if Answers(results, calls) {
      var k, c :| 0 <= k < |results.content| && 0 <= c < |calls.content| &&
        results.content[k].ToolResult? && calls.content[c].ToolUse? && results.content[k].id == calls.content[c].id;
      assert results.content[k] in results.content && calls.content[c] in Calls(calls.content);
      assert calls.content[c].id in both;
    }
    if id :| id in both {
      var r :| r in results.content && r.ToolResult? && r.id == id;
      var call :| call in Calls(calls.content) && call.id == id;
      var k :| 0 <= k < |results.content| && results.content[k] == r;
      var c :| 0 <= c < |calls.content| && calls.content[c] == call;
    }
  }

  /** The round that is dropped at a message is that of the read-only calls it is in. */
  lemma {:induction false} RoundIsOf(messages: seq<Message>, cutoff: nat, i: nat) returns (j: nat)
    requires i < |messages| && Dropped(messages, cutoff, i)
    ensures j <= i < cutoff && CallsOnlyReaders(messages[j]) && IsInRound(messages, j, i)
    ensures RoundAt(messages, cutoff, i) == Dropping(CallIds(messages[j].content))
  {
    if messages[i].role == Tool {
      j := RoundIsOf(messages, cutoff, i - 1);
      AnswersIff(messages[i], messages[j]);
    } else {
      j := i;
      ReadOnlyRoundIff(messages[i]);
    }
  }

  lemma {:induction false} RoundIsDropped(messages: seq<Message>, cutoff: nat, j: nat, i: nat)
    requires i < cutoff && j < |messages| && CallsOnlyReaders(messages[j]) && IsInRound(messages, j, i)
    ensures RoundAt(messages, cutoff, i) == Dropping(CallIds(messages[j].content))
    decreases i
  {
    if i == j {
      ReadOnlyRoundIff(messages[j]);
    } else {
      RoundIsDropped(messages, cutoff, j, i - 1);
      AnswersIff(messages[i], messages[j]);
    }
  }

  lemma DroppedIff(messages: seq<Message>, protectedTail: nat, i: nat)
    requires i < |messages|
    ensures Dropped(messages, Cutoff(messages, protectedTail), i) <==> IsRemoved(messages, protectedTail, i)
  {
    var cutoff := Cutoff(messages, protectedTail);
    if Dropped(messages, cutoff, i) {
      var j := RoundIsOf(messages, cutoff, i);
    }
    if IsRemoved(messages, protectedTail, i) {
      var j :| 0 <= j <= i && CallsOnlyReaders(messages[j]) && IsInRound(messages, j, i);
      RoundIsDropped(messages, cutoff, j, i);
    }
  }

  // ----- What is left

  /** The messages at these places. */
  function Taken(messages: seq<Message>, places: seq<nat>): seq<Message>
    requires forall k :: 0 <= k < |places| ==> places[k] < |messages|
  {
    seq(|places|, k requires 0 <= k < |places| => messages[places[k]])
  }

  /** `kept` are the places of the messages that stay, in order; all but the first `first` are behind the first gap. */
  ghost predicate AreKept(messages: seq<Message>, protectedTail: nat, kept: seq<nat>, first: nat) {
    && (forall k :: 0 <= k < |kept| ==> kept[k] < |messages|)
    && IsIncreasing(kept)
    && (forall i :: 0 <= i < |messages| ==> (i in kept <==> !IsRemoved(messages, protectedTail, i)))
    && first <= |kept| && (forall k :: 0 <= k < first ==> kept[k] == k)
    && (first < |messages| ==> IsRemoved(messages, protectedTail, first))
  }

  function Places(messages: seq<Message>, cutoff: nat, from: nat, to: nat): seq<nat>
    requires from <= to <= |messages|
  {
    if from == to then []
    else
      var before := Places(messages, cutoff, from, to - 1);
      if Dropped(messages, cutoff, to - 1) then before else before + [to - 1]
  }

  ghost predicate IsIncreasing(places: seq<nat>) {
    forall j, k :: 0 <= j < k < |places| ==> places[j] < places[k]
  }

  /** Exactly the messages from `from` up to `to` that are not dropped, in order. */
  ghost predicate ArePlaces(messages: seq<Message>, cutoff: nat, from: nat, to: nat, places: seq<nat>)
    requires to <= |messages|
  {
    && IsIncreasing(places) && (forall k :: 0 <= k < |places| ==> from <= places[k] < to)
    && (forall i :: from <= i < to ==> (i in places <==> !Dropped(messages, cutoff, i)))
  }

  lemma OnePlaceMore(messages: seq<Message>, cutoff: nat, from: nat, n: nat, places: seq<nat>)
    requires from <= n < |messages| && ArePlaces(messages, cutoff, from, n, places)
    ensures ArePlaces(messages, cutoff, from, n + 1, if Dropped(messages, cutoff, n) then places else places + [n])
  {
    var more := places + [n];
    forall i | from <= i < n ensures i in more <==> i in places {
    }
    assert more[|places|] == n;
  }

  ghost predicate PlacesOk(messages: seq<Message>, cutoff: nat, from: nat, to: nat)
    requires from <= to <= |messages|
  {
    ArePlaces(messages, cutoff, from, to, Places(messages, cutoff, from, to))
  }

  lemma NextPlaceOk(messages: seq<Message>, cutoff: nat, from: nat, n: nat)
    requires from <= n < |messages| && PlacesOk(messages, cutoff, from, n)
    ensures PlacesOk(messages, cutoff, from, n + 1)
  {
    OnePlaceMore(messages, cutoff, from, n, Places(messages, cutoff, from, n));
  }

  lemma {:induction false} PlacesAre(messages: seq<Message>, cutoff: nat, from: nat, to: nat)
    requires from <= to <= |messages|
    ensures PlacesOk(messages, cutoff, from, to)
  {
    if from < to {
      PlacesAre(messages, cutoff, from, to - 1);
      NextPlaceOk(messages, cutoff, from, to - 1);
    }
  }

  lemma {:induction false} SurvivorsAreTaken(messages: seq<Message>, cutoff: nat, from: nat, to: nat)
    requires from <= to <= |messages|
    ensures var places := Places(messages, cutoff, from, to);
            && (forall k :: 0 <= k < |places| ==> places[k] < |messages|)
            && Taken(messages, places) == Survivors(messages, cutoff, from, to)
  {
    if from < to {
      SurvivorsAreTaken(messages, cutoff, from, to - 1);
    }
  }

  lemma {:induction false} PlacesAddUp(messages: seq<Message>, cutoff: nat, from: nat, to: nat)
    requires from <= to <= |messages|
    ensures |Places(messages, cutoff, from, to)| + DroppedCount(messages, cutoff, to) ==
            to - from + DroppedCount(messages, cutoff, from)
  {
    if from < to {
      PlacesAddUp(messages, cutoff, from, to - 1);
    }
  }

  function UpTo(n: nat): seq<nat> {
    seq(n, i => i)
  }

  lemma FrontAndRestIncrease(first: nat, rest: seq<nat>)
    requires IsIncreasing(rest) && forall k :: 0 <= k < |rest| ==> first <= rest[k]
    ensures IsIncreasing(UpTo(first) + rest) && forall k :: 0 <= k < first ==> (UpTo(first) + rest)[k] == k
    ensures forall i :: i in UpTo(first) + rest <==> 0 <= i < first || i in rest
  {
    var all := UpTo(first) + rest;
    forall i ensures i in all <==> 0 <= i < first || i in rest {
      if 0 <= i < first {
        assert all[i] == i;
      }
    }
  }

  lemma FrontAndRestAreKept(messages: seq<Message>, protectedTail: nat, first: nat, rest: seq<nat>)
    requires IsFirstDropped(messages, Cutoff(messages, protectedTail), |messages|, first)
    requires ArePlaces(messages, Cutoff(messages, protectedTail), first, |messages|, rest)
    ensures AreKept(messages, protectedTail, UpTo(first) + rest, first)
  {
    FrontAndRestIncrease(first, rest);
    forall i | 0 <= i < |messages| ensures i in UpTo(first) + rest <==> !IsRemoved(messages, protectedTail, i) {
      DroppedIff(messages, protectedTail, i);
    }
    if first < |messages| {
      DroppedIff(messages, protectedTail, first);
    }
  }

  /** What is put in for so many messages. */
  function Note(removed: nat): seq<Message> {
    [Message(User, [Text("[" + Decimal(removed) + " read-only tool messages removed]")]),
     Message(Assistant, [Text("Understood, continuing.")])]
  }

  /**
   * Micro-compaction keeps exactly the messages that are not in a round of read-only calls before the protected tail,
   * in their order, and says where the first gap is how many are gone.
   */
  lemma KeepsTheRest(messages: seq<Message>, protectedTail: nat) returns (kept: seq<nat>, first: nat)
    ensures AreKept(messages, protectedTail, kept, first) && |kept| <= |messages|
    ensures MicroCompacted(messages, protectedTail) ==
            if |kept| == |messages| then messages
            else Taken(messages, kept[..first]) + Note(|messages| - |kept|) + Taken(messages, kept[first..])
  {
    var cutoff := Cutoff(messages, protectedTail);
    var count := DroppedCount(messages, cutoff, |messages|);
    first := |messages|;
    if count > 0 {
      first := FirstDropped(messages, cutoff, |messages|);
    } else {
      NoneCounted(messages, cutoff, |messages|);
    }
    var rest := Places(messages, cutoff, first, |messages|);
    kept := UpTo(first) + rest;
    PlacesAre(messages, cutoff, first, |messages|);
    FrontAndRestAreKept(messages, protectedTail, first, rest);
    PlacesAddUp(messages, cutoff, first, |messages|);
    NoneDroppedYet(messages, cutoff, Marker(count), first);
    if count > 0 {
      CompactedIsTaken(messages, cutoff, first, rest, kept, count);
    }
  }

  lemma CompactedIsTaken(messages: seq<Message>, cutoff: nat, first: nat, rest: seq<nat>, kept: seq<nat>, count: nat)
    requires IsFirstDropped(messages, cutoff, |messages|, first) && first < |messages|
    requires rest == Places(messages, cutoff, first, |messages|) && kept == UpTo(first) + rest
    requires forall k :: 0 <= k < |kept| ==> kept[k] < |messages|
    ensures Compacted(messages, cutoff, Marker(count), |messages|) ==
            Taken(messages, kept[..first]) + Note(count) + Taken(messages, kept[first..])
  {
    CompactedShape(messages, cutoff, Marker(count), first, |messages|);
    SurvivorsAreTaken(messages, cutoff, first, |messages|);
    assert kept[..first] == UpTo(first) && kept[first..] == rest;
    assert Taken(messages, UpTo(first)) == messages[..first];
    assert Marker(count) == Note(count);
  }

  /** Of the assistant messages those go that stand before the protected tail and call nothing but read-only tools. */
  lemma AssistantIsRemovedIff(messages: seq<Message>, protectedTail: nat, i: nat)
    requires i < |messages| && messages[i].role == Assistant
    ensures IsRemoved(messages, protectedTail, i) <==> i + protectedTail < |messages| && CallsOnlyReaders(messages[i])
  {
    if i + protectedTail < |messages| && CallsOnlyReaders(messages[i]) {
      assert IsInRound(messages, i, i);
    }
  }

  lemma ResultsAreOf(messages: seq<Message>, j: nat, r: nat, i: nat)
    requires j <= i < |messages| && messages[j].role == Assistant && forall n :: j < n <= i ==> messages[n].role == Tool
    requires r <= i && messages[r].role == Assistant && IsInRound(messages, r, i)
    ensures r == j
  {
  }

  /** A message with a call of any other tool stays, and so does every result behind it. */
  lemma OtherToolsStay(messages: seq<Message>, protectedTail: nat, j: nat, k: nat, i: nat)
    requires j <= i < |messages| && messages[j].role == Assistant && forall n :: j < n <= i ==> messages[n].role == Tool
    requires k < |messages[j].content| && messages[j].content[k].ToolUse?
    requires !IsReadOnlyName(messages[j].content[k].name)
    ensures !IsRemoved(messages, protectedTail, i)
  {
    forall r | 0 <= r <= i && CallsOnlyReaders(messages[r]) && IsInRound(messages, r, i) ensures r == j {
      ResultsAreOf(messages, j, r, i);
    }
  }
}
