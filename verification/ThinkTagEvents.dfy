/** Which events a stream gives: visible text and thinking, told apart by the tags alone. */
module ThinkTagEvents {
  import opened Text
  import opened ThinkTagParser
  import opened ThinkTagChunks

  // ----- One call

  /** Run `k` as it is shown: runs take turns, and the first is thinking if the parser was inside a block. */
  ghost predicate Shows(event: Event, inside: bool, runs: seq<string>, k: nat) {
    && k < |runs| && runs[k] != ""
    && event == if (k % 2 == 0) == inside then ThinkingDelta(runs[k]) else TextDelta(runs[k])
  }

  /** `at` says of which run each event is. */
  ghost predicate ShowInOrder(events: seq<Event>, inside: bool, runs: seq<string>, at: seq<nat>) {
    && |at| == |events|
    && (forall i :: 0 <= i < |at| ==> Shows(events[i], inside, runs, at[i]))
    && (forall i, j :: 0 <= i < j < |at| ==> at[i] < at[j])
    && (forall k :: 0 <= k < |runs| && runs[k] != "" ==> k in at)
  }

  /** The places of the same runs behind one more. */
  function Behind(at: seq<nat>): seq<nat> {
    seq(|at|, i requires 0 <= i < |at| => at[i] + 1)
  }

  lemma {:induction false} EventsShowRuns(inside: bool, runs: seq<string>) returns (at: seq<nat>)
    ensures ShowInOrder(Events(inside, runs), inside, runs, at)
    decreases |runs|
  {
    if |runs| == 0 {
      at := [];
    } else {
      var tail := runs[1..];
      var rest := EventsShowRuns(!inside, tail);
      at := if runs[0] == "" then Behind(rest) else [0] + Behind(rest);
      OneMoreRun(Events(!inside, tail), inside, runs, tail, rest, Behind(rest));
      AllRunsInOrder(Events(!inside, tail), inside, runs, Behind(rest));
    }
  }

  lemma ShowsBehind(event: Event, inside: bool, runs: seq<string>, tail: seq<string>, k: nat)
    requires |runs| > 0 && tail == runs[1..] && Shows(event, !inside, tail, k)
    ensures Shows(event, inside, runs, k + 1)
  {
    assert k + 1 < |runs| && tail[k] == runs[k + 1];
  }

  lemma CoveredBehind(runs: seq<string>, rest: seq<nat>, at: seq<nat>, k: nat)
    requires 0 < k < |runs| && k - 1 in rest && at == Behind(rest)
    ensures k in at
  {
    var i :| 0 <= i < |rest| && rest[i] == k - 1;
    assert at[i] == k;
  }

  lemma OneMoreRun(events: seq<Event>, inside: bool, runs: seq<string>, tail: seq<string>, rest: seq<nat>,
                   behind: seq<nat>)
    requires |runs| > 0 && tail == runs[1..] && ShowInOrder(events, !inside, tail, rest) && behind == Behind(rest)
    ensures forall i :: 0 <= i < |events| ==> Shows(events[i], inside, runs, behind[i])
    ensures forall k :: 0 < k < |runs| && runs[k] != "" ==> k in behind
  {
    forall i | 0 <= i < |events| ensures Shows(events[i], inside, runs, behind[i]) {
      ShowsBehind(events[i], inside, runs, tail, rest[i]);
    }
    forall k | 0 < k < |runs| && runs[k] != "" ensures k in behind {
      assert tail[k - 1] == runs[k];
      CoveredBehind(runs, rest, behind, k);
    }
  }

  lemma AllRunsInOrder(events: seq<Event>, inside: bool, runs: seq<string>, behind: seq<nat>)
    requires |runs| > 0 && |behind| == |events|
    requires forall i :: 0 <= i < |events| ==> Shows(events[i], inside, runs, behind[i])
    requires forall i, j :: 0 <= i < j < |behind| ==> behind[i] < behind[j]
    requires forall i :: 0 <= i < |behind| ==> behind[i] > 0
    requires forall k :: 0 < k < |runs| && runs[k] != "" ==> k in behind
    ensures ShowInOrder(Emit(inside, runs[0]) + events, inside, runs, if runs[0] == "" then behind else [0] + behind)
  {
    if runs[0] == "" {
      assert Emit(inside, runs[0]) + events == events;
    } else {
      var first := Delta(inside, runs[0]);
      assert Shows(first, inside, runs, 0);
      FirstInFront(events, inside, runs, behind, first, [first] + events, [0] + behind);
      assert Emit(inside, runs[0]) == [first];
    }
  }

  lemma FirstInFront(events: seq<Event>, inside: bool, runs: seq<string>, behind: seq<nat>,
                     first: Event, all: seq<Event>, at: seq<nat>)
    requires |runs| > 0 && |behind| == |events| && all == [first] + events && at == [0] + behind
    requires Shows(first, inside, runs, 0)
    requires forall i :: 0 <= i < |events| ==> Shows(events[i], inside, runs, behind[i])
    requires forall i, j :: 0 <= i < j < |behind| ==> behind[i] < behind[j]
    requires forall i :: 0 <= i < |behind| ==> behind[i] > 0
    requires forall k :: 0 < k < |runs| && runs[k] != "" ==> k in behind
    ensures ShowInOrder(all, inside, runs, at)
  {
    forall i | 0 <= i < |at| ensures Shows(all[i], inside, runs, at[i]) {
      if i > 0 {
        assert all[i] == events[i - 1] && at[i] == behind[i - 1];
      }
    }
  }

  /**
   * For whatever parse accounts for the text held and the text of the call: the events are its runs that are not
   * empty, in order, and each is of the kind that its place among the tags says.
   */
  lemma OneCallShows(tags: Tags, inside: bool, held: string, text: string, p: Parse) returns (at: seq<nat>)
    requires IsParse(tags, inside, held + text, p)
    ensures ShowInOrder(Events(inside, Scan(tags, inside, held + text).runs), inside, p.runs, at)
  {
    ParseIsUnique(tags, inside, held + text, p, Scan(tags, inside, held + text));
    at := EventsShowRuns(inside, p.runs);
  }

  // ----- A whole stream

  function VisibleText(events: seq<Event>): string {
    if |events| == 0 then ""
    else
      var before := VisibleText(events[..|events| - 1]);
      match events[|events| - 1]
      case TextDelta(content) => before + content
      case ThinkingDelta(_) => before
  }

  function ThinkingText(events: seq<Event>): string {
    if |events| == 0 then ""
    else
      var before := ThinkingText(events[..|events| - 1]);
      match events[|events| - 1]
      case TextDelta(_) => before
      case ThinkingDelta(content) => before + content
  }

  /** Every second run, the first among them if `first` says so. */
  function EverySecond(runs: seq<string>, first: bool): string
    decreases |runs|
  {
    if |runs| == 0 then "" else (if first then runs[0] else "") + EverySecond(runs[1..], !first)
  }

  ghost predicate NoneEmpty(events: seq<Event>) {
    forall i :: 0 <= i < |events| ==> events[i].content != ""
  }

  /** The events show the runs: visible and thinking text each in order, and no event without content. */
  ghost predicate ShowRuns(events: seq<Event>, inside: bool, runs: seq<string>) {
    && VisibleText(events) == EverySecond(runs, !inside) && ThinkingText(events) == EverySecond(runs, inside)
    && NoneEmpty(events)
  }

  lemma TextsSnoc(events: seq<Event>, e: Event)
    ensures VisibleText(events + [e]) == VisibleText(events) + if e.TextDelta? then e.content else ""
    ensures ThinkingText(events + [e]) == ThinkingText(events) + if e.TextDelta? then "" else e.content
  {
    assert (events + [e])[..|events|] == events;
    assert VisibleText(events) + "" == VisibleText(events) && ThinkingText(events) + "" == ThinkingText(events);
  }

  ghost predicate AddUp(a: seq<Event>, b: seq<Event>) {
    VisibleText(a + b) == VisibleText(a) + VisibleText(b) && ThinkingText(a + b) == ThinkingText(a) + ThinkingText(b)
  }

  lemma AddUpSnoc(a: seq<Event>, b: seq<Event>, e: Event)
    requires AddUp(a, b)
    ensures AddUp(a, b + [e])
  {
    var both, more := a + b, b + [e];
    TextsSnoc(both, e);
    TextsSnoc(b, e);
    var text, thinking := if e.TextDelta? then e.content else "", if e.TextDelta? then "" else e.content;
    MoreText(VisibleText(a), VisibleText(b), VisibleText(both), VisibleText(more), text);
    MoreText(ThinkingText(a), ThinkingText(b), ThinkingText(both), ThinkingText(more), thinking);
    assert a + more == both + [e];
  }

  lemma MoreText(a: string, b: string, both: string, more: string, end: string)
    requires both == a + b && more == b + end
    ensures both + end == a + more
  {
    Associative(a, b, end);
  }

  lemma Associative(a: string, b: string, c: string)
    ensures a + b + c == a + (b + c)
  {
  }

  lemma {:induction false} TextsOfBoth(a: seq<Event>, b: seq<Event>)
    ensures AddUp(a, b)
  {
    if |b| == 0 {
      assert a + b == a;
    } else {
      TextsOfBoth(a, b[..|b| - 1]);
      AddUpSnoc(a, b[..|b| - 1], b[|b| - 1]);
      assert b == b[..|b| - 1] + [b[|b| - 1]];
    }
  }

  lemma TextsOfEmitted(inside: bool, content: string)
    ensures VisibleText(Emit(inside, content)) == if inside then "" else content
    ensures ThinkingText(Emit(inside, content)) == if inside then content else ""
  {
    if content != "" {
      TextsSnoc([], Delta(inside, content));
      assert [] + [Delta(inside, content)] == Emit(inside, content);
    }
  }

  lemma {:induction false} EventsShowTexts(inside: bool, runs: seq<string>)
    ensures ShowRuns(Events(inside, runs), inside, runs)
    decreases |runs|
  {
    if |runs| > 0 {
      EventsShowTexts(!inside, runs[1..]);
      TextsOfBoth(Emit(inside, runs[0]), Events(!inside, runs[1..]));
      TextsOfEmitted(inside, runs[0]);
    }
  }

  lemma {:induction false} SplicedTexts(first: seq<string>, second: seq<string>, which: bool, next: bool)
    requires |first| > 0 && |second| > 0 && next == ((|first| % 2 == 1) == which)
    ensures EverySecond(Splice(first, second), which) == EverySecond(first, which) + EverySecond(second, next)
    decreases |first|
  {
    if |first| == 1 {
      var joined := Splice(first, second);
      assert joined == [first[0] + second[0]] + second[1..];
      assert joined[1..] == second[1..] && first[1..] == [];
    } else {
      SplicedTexts(first[1..], second, !which, next);
      SpliceCons(first[0], first[1..], second);
      assert [first[0]] + first[1..] == first;
      var spliced := Splice(first[1..], second);
      assert ([first[0]] + spliced)[1..] == spliced;
    }
  }

  lemma TextsOfFirstChunk(inside: bool, now: seq<Event>, later: seq<Event>, first: seq<string>, rest: seq<string>,
                          mode: bool)
    requires |first| > 0 && |rest| > 0 && (mode <==> (|first| % 2 == 1) == inside)
    requires ShowRuns(now, inside, first) && ShowRuns(later, mode, rest)
    ensures ShowRuns(now + later, inside, Splice(first, rest))
  {
    TextsOfBoth(now, later);
    SplicedTexts(first, rest, inside, mode);
    SplicedTexts(first, rest, !inside, !mode);
  }

  lemma {:induction false} StreamShowsRuns(tags: Tags, inside: bool, held: string, chunks: seq<string>)
    ensures ShowRuns(StreamEvents(tags, inside, held, chunks), inside, FeedAll(tags, inside, held, chunks).runs)
    decreases |chunks|
  {
    if |chunks| > 0 {
      var first := Scan(tags, inside, held + chunks[0]);
      var later := StreamEvents(tags, first.inside, first.held, chunks[1..]);
      var rest := FeedAll(tags, first.inside, first.held, chunks[1..]);
      StreamShowsRuns(tags, first.inside, first.held, chunks[1..]);
      EventsShowTexts(inside, first.runs);
      ScanIsParse(tags, inside, held + chunks[0], first);
      FeedAllCons(tags, inside, held, chunks, first, rest);
      TextsOfFirstChunk(inside, Events(inside, first.runs), later, first.runs, rest.runs, first.inside);
    }
  }

  /**
   * For any cutting of a text, and whatever parse accounts for it: the visible text is that of the runs outside of
   * tags, the thinking that of the runs inside, and no event is empty.
   */
  lemma StreamShowsParse(tags: Tags, inside: bool, held: string, chunks: seq<string>, p: Parse)
    requires Resting(tags, inside, held) && IsParse(tags, inside, held + Concat(chunks), p)
    ensures ShowRuns(StreamEvents(tags, inside, held, chunks), inside, p.runs)
  {
    StreamShowsRuns(tags, inside, held, chunks);
    CutsDoNotMatter(tags, inside, held, chunks);
    ParseIsUnique(tags, inside, held + Concat(chunks), p, Scan(tags, inside, held + Concat(chunks)));
  }

  /** One call more, of those that a stream makes. */
  lemma FeedNext(tags: Tags, inside: bool, held: string, chunks: seq<string>, i: nat, first: Parse, done: seq<Event>)
    requires i < |chunks| && first == Scan(tags, inside, held + chunks[i])
    ensures done + StreamEvents(tags, inside, held, chunks[i..]) ==
            (done + Events(inside, first.runs)) + StreamEvents(tags, first.inside, first.held, chunks[i + 1..])
  {
    var now, later := Events(inside, first.runs), StreamEvents(tags, first.inside, first.held, chunks[i + 1..]);
    assert chunks[i..][0] == chunks[i] && chunks[i..][1..] == chunks[i + 1..];
    assert done + (now + later) == (done + now) + later;
  }

  /** What a provider does with the chunks of a response. */
  method ReadStream(chunks: seq<string>) returns (events: seq<Event>)
    ensures events == StreamEvents(THINK_TAGS, false, "", chunks)
    ensures forall p :: IsParse(THINK_TAGS, false, Concat(chunks), p) ==> ShowRuns(events, false, p.runs)
  {
    var parser := new Parser();
    ghost var tags := parser.tags;
    events := [];
    for i := 0 to |chunks|
      invariant parser.tags == tags && fresh(parser)
      invariant StreamEvents(tags, false, "", chunks) ==
                events + StreamEvents(tags, parser.insideThink, parser.buf, chunks[i..])
    {
      ghost var first := Scan(tags, parser.insideThink, parser.buf + chunks[i]);
      FeedNext(tags, parser.insideThink, parser.buf, chunks, i, first, events);
      var now := parser.Feed(chunks[i]);
      events := events + now;
    }
    assert events + [] == events;
    StreamShowsAnyParse(tags, chunks);
  }

  lemma StreamShowsAnyParse(tags: Tags, chunks: seq<string>)
    ensures forall p :: IsParse(tags, false, Concat(chunks), p) ==>
                          ShowRuns(StreamEvents(tags, false, "", chunks), false, p.runs)
  {
    ShortTextRests(tags, false, "");
    assert "" + Concat(chunks) == Concat(chunks);
    forall p | IsParse(tags, false, Concat(chunks), p)
      ensures ShowRuns(StreamEvents(tags, false, "", chunks), false, p.runs) {
      StreamShowsParse(tags, false, "", chunks, p);
    }
  }

  /** A block of thinking, and text behind it. */
  lemma BlockAndText(text: string)
    requires text == "<think>" + "a" + "</think>" + "b"
    ensures IsParse(THINK_TAGS, false, text, Parse(["", "a", "b"], false, ""))
    ensures Events(false, Scan(THINK_TAGS, false, text).runs) == [ThinkingDelta("a"), TextDelta("b")]
  {
    var tags := Tags("<think>", "</think>");
    var p := Parse(["", "a", "b"], false, "");
    BlockAndTextIsParse(tags, "", "a", "b", p);
    ParseIsUnique(tags, false, text, p, Scan(tags, false, text));
    assert p.runs[1..] == ["a", "b"] && ["a", "b"][1..] == ["b"] && ["b"][1..] == [];
  }

  lemma BlockAndTextIsParse(tags: Tags, empty: string, a: string, b: string, p: Parse)
    requires |tags.open| > 1 && |a| == 1 && |b| == 1 && a[0] != tags.close[0] && b[0] != tags.open[0] && empty == ""
    requires p == Parse([empty, a, b], false, "")
    ensures IsParse(tags, false, tags.open + a + tags.close + b, p)
  {
    var runs := p.runs;
    assert runs[1..] == [a, b] && [a, b][1..] == [b];
    assert Restored(tags, false, [b], "") == b;
    assert Restored(tags, true, [a, b], "") == a + tags.close + b;
    assert Restored(tags, false, runs, "") == empty + tags.open + (a + tags.close + b);
    assert StopsAtTag(tags, false, runs, 0) by {
      assert empty + tags.open == tags.open;
      assert OccursAt(tags.open, tags.open, 0);
    }
    assert StopsAtTag(tags, false, runs, 1) by {
      assert OccursAt(a + tags.close, tags.close, 1);
    }
    FindIsFirstOccurrence(b, tags.open);
    assert b + "" == b;
  }
}
