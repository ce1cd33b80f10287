/** What dropping read-only rounds keeps: calls stay answered, the tail stays as it is, and the sizes add up. */
module RoundPairing {
  import opened Messages
  import opened Compaction

  // ----- Shape of the result

  /** The messages from `from` up to `to` that are not dropped, in order. */
  function Survivors(messages: seq<Message>, cutoff: nat, from: nat, to: nat): seq<Message>
    requires from <= to <= |messages|
  {
    if from == to then []
    else
      Survivors(messages, cutoff, from, to - 1) +
      if Dropped(messages, cutoff, to - 1) then [] else [messages[to - 1]]
  }

  /** `first` is the first message that is dropped, or `n` if none of the first `n` is. */
  ghost predicate IsFirstDropped(messages: seq<Message>, cutoff: nat, n: nat, first: nat) {
    && first <= n <= |messages|
    && (forall k :: 0 <= k < first ==> !Dropped(messages, cutoff, k))
    && (first < n ==> Dropped(messages, cutoff, first))
  }

  lemma {:induction false} NoneDroppedYet(messages: seq<Message>, cutoff: nat, marker: seq<Message>, n: nat)
    requires n <= |messages| && forall k :: 0 <= k < n ==> !Dropped(messages, cutoff, k)
    ensures DroppedCount(messages, cutoff, n) == 0
    ensures Compacted(messages, cutoff, marker, n) == messages[..n]
  {
    if n > 0 {
      NoneDroppedYet(messages, cutoff, marker, n - 1);
      assert messages[..n] == messages[..n - 1] + [messages[n - 1]];
    }
  }

  /** The messages up to the first dropped one, the marker pair once, then the survivors in their order. */
  lemma {:induction false} CompactedShape(messages: seq<Message>, cutoff: nat, marker: seq<Message>, first: nat, n: nat)
    requires IsFirstDropped(messages, cutoff, n, first) && first < n
    ensures DroppedCount(messages, cutoff, n) > 0
    ensures Compacted(messages, cutoff, marker, n) == messages[..first] + marker + Survivors(messages, cutoff, first, n)
    decreases n
  {
    NoneDroppedYet(messages, cutoff, marker, first);
    if n == first + 1 {
      assert Survivors(messages, cutoff, first, first) == [];
      assert marker == marker + Survivors(messages, cutoff, first, n);
    } else {
      CompactedShape(messages, cutoff, marker, first, n - 1);
    }
  }

  /** One marker pair stands where the first dropped message was; everything else keeps its order. */
  lemma OneMarkerInPlace(messages: seq<Message>, protectedTail: nat) returns (first: nat)
    ensures var cutoff := Cutoff(messages, protectedTail);
            var count := DroppedCount(messages, cutoff, |messages|);
            if count == 0 then MicroCompacted(messages, protectedTail) == messages
            else
              && IsFirstDropped(messages, cutoff, |messages|, first)
              && MicroCompacted(messages, protectedTail) ==
                 messages[..first] + Marker(count) + Survivors(messages, cutoff, first, |messages|)
  {
    var cutoff := Cutoff(messages, protectedTail);
    var count := DroppedCount(messages, cutoff, |messages|);
    first := 0;
    if count > 0 {
      first := FirstDropped(messages, cutoff, |messages|);
      CompactedShape(messages, cutoff, Marker(count), first, |messages|);
    }
  }

  /** Messages that are not dropped survive one for one. */
  lemma {:induction false} SurvivorsVerbatim(messages: seq<Message>, cutoff: nat, from: nat, mid: nat, to: nat)
    requires from <= mid <= to <= |messages|
    requires forall k :: mid <= k < to ==> !Dropped(messages, cutoff, k)
    ensures Survivors(messages, cutoff, from, to) == Survivors(messages, cutoff, from, mid) + messages[mid..to]
  {
    if mid < to {
      SurvivorsVerbatim(messages, cutoff, from, mid, to - 1);
      assert messages[mid..to] == messages[mid..to - 1] + [messages[to - 1]];
    } else {
      assert messages[mid..to] == [];
    }
  }

  /** The protected tail comes out as it went in. */
  lemma TailIsVerbatim(messages: seq<Message>, protectedTail: nat)
    ensures var out, cutoff := MicroCompacted(messages, protectedTail), Cutoff(messages, protectedTail);
            |out| >= |messages| - cutoff && out[|out| - (|messages| - cutoff)..] == messages[cutoff..]
  {
    var cutoff := Cutoff(messages, protectedTail);
    var count := DroppedCount(messages, cutoff, |messages|);
    if count > 0 {
      var front, tail := Compacted(messages, cutoff, Marker(count), cutoff), messages[cutoff..];
      CompactedTail(messages, cutoff, Marker(count), |messages|);
      assert messages[cutoff..|messages|] == tail;
      assert (front + tail)[|front|..] == tail;
    }
  }

  lemma {:induction false} FirstDropped(messages: seq<Message>, cutoff: nat, n: nat) returns (first: nat)
    requires n <= |messages| && DroppedCount(messages, cutoff, n) > 0
    ensures IsFirstDropped(messages, cutoff, n, first) && first < n && first < cutoff
  {
    if DroppedCount(messages, cutoff, n - 1) > 0 {
      first := FirstDropped(messages, cutoff, n - 1);
    } else {
      first := n - 1;
      NoneCounted(messages, cutoff, n - 1);
    }
  }

  lemma {:induction false} NoneCounted(messages: seq<Message>, cutoff: nat, n: nat)
    requires n <= |messages| && DroppedCount(messages, cutoff, n) == 0
    ensures forall k :: 0 <= k < n ==> !Dropped(messages, cutoff, k)
  {
    if n > 0 {
      NoneCounted(messages, cutoff, n - 1);
    }
  }

  // ----- Conservation of size

  lemma {:induction false} TotalCharsUpTo(dump: Content -> nat, a: seq<Message>, b: seq<Message>, k: nat)
    requires k <= |b|
    ensures TotalChars(dump, a + b[..k]) == TotalChars(dump, a) + TotalChars(dump, b[..k])
  {
    if k == 0 {
      assert a + b[..0] == a;
    } else {
      TotalCharsUpTo(dump, a, b, k - 1);
      TotalCharsOneMore(dump, a, b[..k - 1], b[k - 1]);
      assert b[..k] == b[..k - 1] + [b[k - 1]];
    }
  }

  lemma TotalCharsConcat(dump: Content -> nat, a: seq<Message>, b: seq<Message>)
    ensures TotalChars(dump, a + b) == TotalChars(dump, a) + TotalChars(dump, b)
  {
    TotalCharsUpTo(dump, a, b, |b|);
    assert b[..|b|] == b;
  }

  lemma TotalCharsOneMore(dump: Content -> nat, a: seq<Message>, init: seq<Message>, last: Message)
    requires TotalChars(dump, a + init) == TotalChars(dump, a) + TotalChars(dump, init)
    ensures TotalChars(dump, a + (init + [last])) == TotalChars(dump, a) + TotalChars(dump, init + [last])
  {
    TotalCharsAppend(dump, a + init, last);
    TotalCharsAppend(dump, init, last);
    assert a + (init + [last]) == (a + init) + [last];
  }

  lemma {:induction false} CompactedChars(dump: Content -> nat, messages: seq<Message>, cutoff: nat,
                                          marker: seq<Message>, n: nat)
    requires n <= |messages|
    ensures TotalChars(dump, Compacted(messages, cutoff, marker, n)) + DroppedChars(dump, messages, cutoff, n) ==
            TotalChars(dump, messages[..n]) +
            if DroppedCount(messages, cutoff, n) == 0 then 0 else TotalChars(dump, marker)
  {
    if n > 0 {
      CompactedChars(dump, messages, cutoff, marker, n - 1);
      var out, out' := Compacted(messages, cutoff, marker, n - 1), Compacted(messages, cutoff, marker, n);
      var chars := ContentChars(dump, messages[n - 1].content);
      CompactedCharsStep(dump, messages, cutoff, marker, n - 1, out, out', chars);
      PrefixChars(dump, messages, n - 1, chars);
    }
  }

  lemma PrefixChars(dump: Content -> nat, messages: seq<Message>, n: nat, chars: nat)
    requires n < |messages| && chars == ContentChars(dump, messages[n].content)
    ensures TotalChars(dump, messages[..n + 1]) == TotalChars(dump, messages[..n]) + chars
  {
    TotalCharsAppend(dump, messages[..n], messages[n]);
    assert messages[..n + 1] == messages[..n] + [messages[n]];
  }

  lemma CompactedCharsStep(dump: Content -> nat, messages: seq<Message>, cutoff: nat, marker: seq<Message>, n: nat,
                           out: seq<Message>, out': seq<Message>, chars: nat)
    requires n < |messages| && chars == ContentChars(dump, messages[n].content)
    requires out == Compacted(messages, cutoff, marker, n) && out' == Compacted(messages, cutoff, marker, n + 1)
    ensures TotalChars(dump, out') == TotalChars(dump, out) +
            if !Dropped(messages, cutoff, n) then chars
            else if DroppedCount(messages, cutoff, n) == 0 then TotalChars(dump, marker) else 0
  {
    if !Dropped(messages, cutoff, n) {
      TotalCharsAppend(dump, out, messages[n]);
    } else if DroppedCount(messages, cutoff, n) == 0 {
      TotalCharsConcat(dump, out, marker);
    } else {
      assert out + [] == out;
    }
  }

  /** What is left and what was freed add up to what there was and the marker pair. */
  lemma FreedCharsAddUp(dump: Content -> nat, messages: seq<Message>, protectedTail: nat)
    ensures var cutoff := Cutoff(messages, protectedTail);
            var count := DroppedCount(messages, cutoff, |messages|);
            TotalChars(dump, MicroCompacted(messages, protectedTail)) +
              DroppedChars(dump, messages, cutoff, |messages|) ==
            TotalChars(dump, messages) + if count == 0 then 0 else TotalChars(dump, Marker(count))
  {
    var cutoff := Cutoff(messages, protectedTail);
    var count := DroppedCount(messages, cutoff, |messages|);
    CompactedChars(dump, messages, cutoff, Marker(count), |messages|);
    assert messages[..|messages|] == messages;
    if count == 0 {
      NoneCounted(messages, cutoff, |messages|);
      NoneDroppedYet(messages, cutoff, Marker(count), |messages|);
    }
  }

  // ----- Pairing of calls and results

  /**
   * A reading of a history from left to right: the calls of the message that tool messages now answer,
   * those still unanswered, whether an earlier call stayed unanswered, and whether a result had no call.
   */
  datatype Pairing = Pairing(calls: set<string>, open: set<string>, lost: bool, dangling: bool)

  function CallsMade(m: Message): set<string> {
    if m.role == Assistant then CallIds(m.content) else {}
  }

  function Advance(p: Pairing, m: Message): Pairing {
    if m.role == Tool then
      var ids := ResultIds(m.content);
      p.(open := p.open - ids, dangling := p.dangling || !(ids <= p.calls))
    else
      Pairing(CallsMade(m), CallsMade(m), p.lost || p.open != {}, p.dangling)
  }

  function PairingOf(messages: seq<Message>): Pairing {
    if |messages| == 0 then Pairing({}, {}, false, false)
    else Advance(PairingOf(messages[..|messages| - 1]), messages[|messages| - 1])
  }

  lemma PairingAppend(messages: seq<Message>, m: Message)
    ensures PairingOf(messages + [m]) == Advance(PairingOf(messages), m)
  {
    assert (messages + [m])[..|messages|] == messages;
  }

  predicate AllAnswered(messages: seq<Message>) {
    !PairingOf(messages).lost && PairingOf(messages).open == {}
  }

  predicate NoneDangling(messages: seq<Message>) {
    !PairingOf(messages).dangling
  }

  /** Every run of tool messages answers exactly the assistant message before it. */
  ghost predicate WellPaired(messages: seq<Message>) {
    && AllAnswered(messages)
    && NoneDangling(messages)
    && forall i :: 0 <= i < |messages| && messages[i].role == Tool ==> ResultIds(messages[i].content) != {}
  }

  /** No call id is used again in another message. */
  ghost predicate DistinctCalls(messages: seq<Message>) {
    forall i, j :: 0 <= i < j < |messages| ==> CallsMade(messages[i]) !! CallsMade(messages[j])
  }

  lemma {:induction false} PrefixIsClean(messages: seq<Message>, n: nat)
    requires n <= |messages|
    ensures PairingOf(messages[..n]).lost ==> PairingOf(messages).lost
    ensures PairingOf(messages[..n]).dangling ==> PairingOf(messages).dangling
    decreases |messages| - n
  {
    if n == |messages| {
      assert messages[..n] == messages;
    } else {
      PrefixIsClean(messages, n + 1);
      PairingAppend(messages[..n], messages[n]);
      assert messages[..n + 1] == messages[..n] + [messages[n]];
    }
  }

  lemma PairingStep(messages: seq<Message>, n: nat)
    requires n < |messages|
    ensures PairingOf(messages[..n + 1]) == Advance(PairingOf(messages[..n]), messages[n])
  {
    PairingAppend(messages[..n], messages[n]);
    assert messages[..n + 1] == messages[..n] + [messages[n]];
  }

  /** Before each message other than a result all calls are answered. */
  lemma AnsweredSoFar(messages: seq<Message>, n: nat)
    requires n < |messages| && AllAnswered(messages)
    ensures !PairingOf(messages[..n]).lost && (messages[n].role != Tool ==> PairingOf(messages[..n]).open == {})
  {
    PrefixIsClean(messages, n);
    PrefixIsClean(messages, n + 1);
    PairingStep(messages, n);
  }

  lemma ResultsHaveCalls(messages: seq<Message>, n: nat)
    requires n < |messages| && NoneDangling(messages) && messages[n].role == Tool
    ensures ResultIds(messages[n].content) <= PairingOf(messages[..n]).calls
  {
    PrefixIsClean(messages, n + 1);
    PairingStep(messages, n);
  }

  // ----- Results behind a dropped message

  /** A tool message that is kept, directly behind dropped ones or others like it. */
  predicate Stranded(messages: seq<Message>, cutoff: nat, i: nat)
    requires i < |messages|
  {
    !Dropped(messages, cutoff, i) && messages[i].role == Tool && i > 0 &&
    (Dropped(messages, cutoff, i - 1) || Stranded(messages, cutoff, i - 1))
  }

  /** The calls of a round that is dropped are those of the message that its results answer. */
  lemma {:induction false} RoundIsOfCalls(messages: seq<Message>, cutoff: nat, i: nat)
    requires i < |messages| && Dropped(messages, cutoff, i)
    ensures RoundAt(messages, cutoff, i) == Dropping(PairingOf(messages[..i + 1]).calls)
  {
    PairingStep(messages, i);
    if messages[i].role == Tool {
      RoundIsOfCalls(messages, cutoff, i - 1);
    }
  }

  /** Before the cutoff a result goes with its call: a dropped message is not followed by a kept result. */
  lemma ResultGoesWithItsCall(messages: seq<Message>, cutoff: nat, i: nat)
    requires WellPaired(messages) && 0 < i < cutoff <= |messages| && messages[i].role == Tool
    requires Dropped(messages, cutoff, i - 1)
    ensures Dropped(messages, cutoff, i)
  {
    ResultsHaveCalls(messages, i);
    RoundIsOfCalls(messages, cutoff, i - 1);
    var ids, calls := ResultIds(messages[i].content), PairingOf(messages[..i]).calls;
    assert ids * calls == ids;
  }

  /** So any result whose call was removed lies in the protected tail. */
  lemma {:induction false} StrandedLieInTail(messages: seq<Message>, cutoff: nat, i: nat)
    requires WellPaired(messages) && i < |messages| && cutoff <= |messages| && Stranded(messages, cutoff, i)
    ensures i >= cutoff && CutsRound(messages, cutoff)
    ensures forall k :: cutoff <= k <= i ==> messages[k].role == Tool
  {
    if Dropped(messages, cutoff, i - 1) {
      if i < cutoff {
        ResultGoesWithItsCall(messages, cutoff, i);
      }
    } else {
      StrandedLieInTail(messages, cutoff, i - 1);
    }
  }

  /** The cutoff falls between a dropped call and one of its results. */
  predicate CutsRound(messages: seq<Message>, cutoff: nat) {
    0 < cutoff < |messages| && messages[cutoff].role == Tool && Dropped(messages, cutoff, cutoff - 1)
  }

  // ----- Reading the result beside the history

  /** The calls that a result kept behind the first `n` messages would seem to answer. */
  function CallsLeft(messages: seq<Message>, cutoff: nat, n: nat): set<string>
    requires n <= |messages|
  {
    if n == 0 then {}
    else if Dropped(messages, cutoff, n - 1) then
      if DroppedCount(messages, cutoff, n - 1) == 0 then {} else CallsLeft(messages, cutoff, n - 1)
    else if messages[n - 1].role == Tool then CallsLeft(messages, cutoff, n - 1)
    else CallsMade(messages[n - 1])
  }

  /** A stranded result whose ids are not those of the call that now stands before it. */
  predicate Dangles(messages: seq<Message>, cutoff: nat, i: nat)
    requires i < |messages|
  {
    Stranded(messages, cutoff, i) && !(ResultIds(messages[i].content) <= CallsLeft(messages, cutoff, i))
  }

  ghost predicate SomeDangle(messages: seq<Message>, cutoff: nat, n: nat)
    requires n <= |messages|
  {
    exists i :: 0 <= i < n && Dangles(messages, cutoff, i)
  }

  lemma SomeDangleStep(messages: seq<Message>, cutoff: nat, n: nat)
    requires n < |messages|
    ensures SomeDangle(messages, cutoff, n + 1) <==> SomeDangle(messages, cutoff, n) || Dangles(messages, cutoff, n)
  {
  }

  predicate IsBehindDropped(messages: seq<Message>, cutoff: nat, n: nat)
    requires n <= |messages|
  {
    n > 0 && (Dropped(messages, cutoff, n - 1) || Stranded(messages, cutoff, n - 1))
  }

  /** How the reading of the result relates to the reading of the history after `n` messages. */
  ghost predicate InStep(messages: seq<Message>, cutoff: nat, n: nat, before: Pairing, after: Pairing)
    requires n <= |messages|
  {
    && !after.lost && after.calls == CallsLeft(messages, cutoff, n)
    && (!before.dangling ==> (after.dangling <==> SomeDangle(messages, cutoff, n)))
    && if IsBehindDropped(messages, cutoff, n) then after.open == {}
       else after.open == before.open && after.calls == before.calls
  }

  /** A message that is kept: behind a dropped round its results answer nothing, elsewhere all is as it was. */
  lemma KeptStep(messages: seq<Message>, cutoff: nat, n: nat, before: Pairing, after: Pairing)
    requires n < |messages| && !Dropped(messages, cutoff, n)
    requires messages[n].role != Tool ==> before.open == {}
    requires InStep(messages, cutoff, n, before, after)
    ensures InStep(messages, cutoff, n + 1, Advance(before, messages[n]), Advance(after, messages[n]))
  {
    SomeDangleStep(messages, cutoff, n);
  }

  /** A dropped message leaves the result as it was. */
  lemma DroppedStep(messages: seq<Message>, cutoff: nat, n: nat, before: Pairing, after: Pairing)
    requires n < |messages| && Dropped(messages, cutoff, n) && DroppedCount(messages, cutoff, n) > 0
    requires messages[n].role != Tool ==> before.open == {}
    requires InStep(messages, cutoff, n, before, after)
    ensures InStep(messages, cutoff, n + 1, Advance(before, messages[n]), after)
  {
    SomeDangleStep(messages, cutoff, n);
    RoundBefore(messages, cutoff, n);
  }

  /** The first dropped message: the marker pair goes in where a call was, so it separates no result from its call. */
  lemma MarkerStep(messages: seq<Message>, cutoff: nat, n: nat, before: Pairing, after: Pairing)
    requires n < |messages| && Dropped(messages, cutoff, n) && DroppedCount(messages, cutoff, n) == 0
    requires messages[n].role != Tool ==> before.open == {}
    requires InStep(messages, cutoff, n, before, after)
    ensures InStep(messages, cutoff, n + 1, Advance(before, messages[n]),
                   Pairing({}, {}, after.lost || after.open != {}, after.dangling))
  {
    SomeDangleStep(messages, cutoff, n);
    RoundBefore(messages, cutoff, n);
    NoneCounted(messages, cutoff, n);
  }

  /** A dropped result stands behind a dropped message. */
  lemma RoundBefore(messages: seq<Message>, cutoff: nat, n: nat)
    requires n < |messages| && Dropped(messages, cutoff, n)
    ensures messages[n].role == Tool ==> n > 0 && Dropped(messages, cutoff, n - 1)
  {
  }

  lemma MarkerReading(out: seq<Message>, count: nat)
    ensures var p := PairingOf(out);
            PairingOf(out + Marker(count)) == Pairing({}, {}, p.lost || p.open != {}, p.dangling)
  {
    var marker := Marker(count);
    PairingAppend(out, marker[0]);
    PairingAppend(out + [marker[0]], marker[1]);
    assert out + marker == (out + [marker[0]]) + [marker[1]];
    assert Calls(marker[1].content) == {};
  }

  /** One more message, whether kept, dropped or the first one dropped. */
  lemma OneMoreStep(messages: seq<Message>, cutoff: nat, count: nat, n: nat, out: seq<Message>, before: Pairing)
    requires n < |messages| && (messages[n].role != Tool ==> before.open == {})
    requires InStep(messages, cutoff, n, before, PairingOf(out))
    ensures InStep(messages, cutoff, n + 1, Advance(before, messages[n]),
                   PairingOf(WithOneMore(messages, cutoff, Marker(count), n, out)))
  {
    if !Dropped(messages, cutoff, n) {
      PairingAppend(out, messages[n]);
      KeptStep(messages, cutoff, n, before, PairingOf(out));
    } else if DroppedCount(messages, cutoff, n) == 0 {
      MarkerReading(out, count);
      MarkerStep(messages, cutoff, n, before, PairingOf(out));
    } else {
      DroppedStep(messages, cutoff, n, before, PairingOf(out));
    }
  }

  function WithOneMore(messages: seq<Message>, cutoff: nat, marker: seq<Message>, n: nat,
                       out: seq<Message>): seq<Message>
    requires n < |messages|
  {
    if !Dropped(messages, cutoff, n) then out + [messages[n]]
    else if DroppedCount(messages, cutoff, n) == 0 then out + marker
    else out
  }

  lemma CompactedStep(messages: seq<Message>, cutoff: nat, marker: seq<Message>, n: nat)
    requires n < |messages|
    ensures Compacted(messages, cutoff, marker, n + 1) ==
            WithOneMore(messages, cutoff, marker, n, Compacted(messages, cutoff, marker, n))
  {
    var out := Compacted(messages, cutoff, marker, n);
    assert out + [] == out;
  }

  lemma NextStep(messages: seq<Message>, cutoff: nat, count: nat, n: nat, out: seq<Message>, out': seq<Message>,
                 before: Pairing, before': Pairing)
    requires n < |messages| && AllAnswered(messages)
    requires before == PairingOf(messages[..n]) && before' == PairingOf(messages[..n + 1])
    requires out' == WithOneMore(messages, cutoff, Marker(count), n, out)
    requires InStep(messages, cutoff, n, before, PairingOf(out))
    ensures InStep(messages, cutoff, n + 1, before', PairingOf(out'))
  {
    AnsweredSoFar(messages, n);
    PairingStep(messages, n);
    OneMoreStep(messages, cutoff, count, n, out, before);
  }

  ghost predicate InStepAt(messages: seq<Message>, cutoff: nat, count: nat, n: nat)
    requires n <= |messages|
  {
    InStep(messages, cutoff, n, PairingOf(messages[..n]), PairingOf(Compacted(messages, cutoff, Marker(count), n)))
  }

  lemma NextInStep(messages: seq<Message>, cutoff: nat, count: nat, n: nat)
    requires n < |messages| && AllAnswered(messages) && InStepAt(messages, cutoff, count, n)
    ensures InStepAt(messages, cutoff, count, n + 1)
  {
    var marker := Marker(count);
    var out, out' := Compacted(messages, cutoff, marker, n), Compacted(messages, cutoff, marker, n + 1);
    CompactedStep(messages, cutoff, marker, n);
    NextStep(messages, cutoff, count, n, out, out', PairingOf(messages[..n]), PairingOf(messages[..n + 1]));
  }

  lemma {:induction false} StaysInStep(messages: seq<Message>, cutoff: nat, count: nat, n: nat)
    requires AllAnswered(messages) && n <= |messages|
    ensures InStepAt(messages, cutoff, count, n)
  {
    if n > 0 {
      StaysInStep(messages, cutoff, count, n - 1);
      NextInStep(messages, cutoff, count, n - 1);
    }
  }

  /** No call loses its answer. */
  lemma CallsStayAnswered(messages: seq<Message>, protectedTail: nat)
    requires AllAnswered(messages)
    ensures AllAnswered(MicroCompacted(messages, protectedTail))
  {
    var cutoff := Cutoff(messages, protectedTail);
    var count := DroppedCount(messages, cutoff, |messages|);
    StaysInStep(messages, cutoff, count, |messages|);
    assert messages[..|messages|] == messages;
  }

  lemma {:induction false} CompactedTail(messages: seq<Message>, cutoff: nat, marker: seq<Message>, n: nat)
    requires cutoff <= n <= |messages|
    ensures Compacted(messages, cutoff, marker, n) == Compacted(messages, cutoff, marker, cutoff) + messages[cutoff..n]
  {
    if n > cutoff {
      CompactedTail(messages, cutoff, marker, n - 1);
      assert messages[cutoff..n] == messages[cutoff..n - 1] + [messages[n - 1]];
    }
  }

  /** Before the protected tail the result has no result without its call. */
  lemma NoneDangleBeforeTail(messages: seq<Message>, protectedTail: nat)
    requires WellPaired(messages)
    ensures var out, cutoff := MicroCompacted(messages, protectedTail), Cutoff(messages, protectedTail);
            |out| >= |messages| - cutoff && NoneDangling(out[..|out| - (|messages| - cutoff)])
  {
    var out, cutoff := MicroCompacted(messages, protectedTail), Cutoff(messages, protectedTail);
    var count := DroppedCount(messages, cutoff, |messages|);
    PrefixIsClean(messages, cutoff);
    if count > 0 {
      var front := Compacted(messages, cutoff, Marker(count), cutoff);
      StaysInStep(messages, cutoff, count, cutoff);
      CompactedTail(messages, cutoff, Marker(count), |messages|);
      assert out[..|out| - (|messages| - cutoff)] == front;
      if SomeDangle(messages, cutoff, cutoff) {
        var i :| 0 <= i < cutoff && Dangles(messages, cutoff, i);
        StrandedLieInTail(messages, cutoff, i);
      }
    }
  }

  /** A result is left without its call exactly when one that is stranded has other ids than the call before it. */
  lemma DanglingIff(messages: seq<Message>, protectedTail: nat)
    requires WellPaired(messages)
    ensures NoneDangling(MicroCompacted(messages, protectedTail)) <==>
            !SomeDangle(messages, Cutoff(messages, protectedTail), |messages|)
  {
    var cutoff := Cutoff(messages, protectedTail);
    var count := DroppedCount(messages, cutoff, |messages|);
    assert messages[..|messages|] == messages;
    StaysInStep(messages, cutoff, count, |messages|);
    if count == 0 {
      NoneCounted(messages, cutoff, |messages|);
      NoneDroppedYet(messages, cutoff, Marker(count), |messages|);
    }
  }

  // ----- Histories that use no call id again

  /** The calls left belong to a message that is kept, and those of a dropped round to one that is dropped. */
  lemma {:induction false} LeftCallIsKept(messages: seq<Message>, cutoff: nat, n: nat, id: string) returns (k: nat)
    requires n <= |messages| && id in CallsLeft(messages, cutoff, n)
    ensures k < n && !Dropped(messages, cutoff, k) && id in CallsMade(messages[k])
  {
    if Dropped(messages, cutoff, n - 1) || messages[n - 1].role == Tool {
      k := LeftCallIsKept(messages, cutoff, n - 1, id);
    } else {
      k := n - 1;
    }
  }

  lemma {:induction false} DroppedCallIsDropped(messages: seq<Message>, cutoff: nat, n: nat, id: string)
    returns (k: nat)
    requires n < |messages| && Dropped(messages, cutoff, n) && id in RoundAt(messages, cutoff, n).ids
    ensures k <= n && Dropped(messages, cutoff, k) && id in CallsMade(messages[k])
  {
    if messages[n].role == Tool {
      k := DroppedCallIsDropped(messages, cutoff, n - 1, id);
    } else {
      k := n;
    }
  }

  lemma CutRoundDangles(messages: seq<Message>, cutoff: nat)
    requires WellPaired(messages) && DistinctCalls(messages) && cutoff <= |messages| && CutsRound(messages, cutoff)
    ensures Dangles(messages, cutoff, cutoff)
  {
    ResultsHaveCalls(messages, cutoff);
    RoundIsOfCalls(messages, cutoff, cutoff - 1);
    var ids := ResultIds(messages[cutoff].content);
    var id :| id in ids;
    var j := DroppedCallIsDropped(messages, cutoff, cutoff - 1, id);
    if id in CallsLeft(messages, cutoff, cutoff) {
      var k := LeftCallIsKept(messages, cutoff, cutoff, id);
      assert id in CallsMade(messages[j]) * CallsMade(messages[k]);
    }
  }

  /**
   * Where no call id is used again, a result is left without its call exactly when the cutoff divides a dropped round.
   */
  lemma DanglingIffRoundIsCut(messages: seq<Message>, protectedTail: nat)
    requires WellPaired(messages)
    ensures !CutsRound(messages, Cutoff(messages, protectedTail)) ==>
            NoneDangling(MicroCompacted(messages, protectedTail))
    ensures DistinctCalls(messages) ==>
              (NoneDangling(MicroCompacted(messages, protectedTail)) <==>
                !CutsRound(messages, Cutoff(messages, protectedTail)))
  {
    var cutoff := Cutoff(messages, protectedTail);
    DanglingIff(messages, protectedTail);
    if CutsRound(messages, cutoff) {
      if DistinctCalls(messages) {
        CutRoundDangles(messages, cutoff);
      }
    } else if SomeDangle(messages, cutoff, |messages|) {
      var i :| 0 <= i < |messages| && Dangles(messages, cutoff, i);
      StrandedLieInTail(messages, cutoff, i);
    }
  }

  /** A read-only call and its result, of which only the result is protected: it is left without its call. */
  lemma CutBetweenCallAndResult(call: Content, result: Content)
    requires call.ToolUse? && call.name in READ_ONLY_TOOLS && result.ToolResult? && result.id == call.id
    ensures var messages := [Message(Assistant, [call]), Message(Tool, [result])];
            WellPaired(messages) && DistinctCalls(messages) && !NoneDangling(MicroCompacted(messages, 1))
  {
    var round := [Message(Assistant, [call])];
    var messages := [Message(Assistant, [call]), Message(Tool, [result])];
    assert Calls([call]) == {call} && CallIds([call]) == {call.id} && Calls([result]) == {};
    assert result in [result] && ResultIds([result]) == {call.id};
    PairingAppend([], round[0]);
    PairingAppend(round, messages[1]);
    assert [] + [round[0]] == round && round + [messages[1]] == messages;
    assert IsReadOnlyRound(messages[0]) && Dropped(messages, 1, 0);
    DanglingIffRoundIsCut(messages, 1);
  }
}
