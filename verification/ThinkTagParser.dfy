/** The streaming parser that separates `<think>` blocks from visible text. */
module ThinkTagParser {
  import opened Text

  type Tag = s: string | |s| > 0 witness "<"

  /** The pair of tags that delimit a thinking block. */
  datatype Tags = Tags(open: Tag, close: Tag)

  const THINK_TAGS := Tags("<think>", "</think>")

  datatype Event = ThinkingDelta(content: string) | TextDelta(content: string)

  /** The tag that ends the current mode. */
  function Sought(tags: Tags, inside: bool): Tag {
    if inside then tags.close else tags.open
  }

  function Delta(inside: bool, content: string): Event {
    if inside then ThinkingDelta(content) else TextDelta(content)
  }

  // ----- Partial tags

  /** The last `n` characters of `buf` could be the start of `tag`. */
  predicate IsPartial(buf: string, tag: string, n: int) {
    n == 0 || (0 < n <= |buf| && n < |tag| && buf[|buf| - n..] == tag[..n])
  }

  /** `n` is the length of the longest suffix of `buf` that could be the start of `tag`. */
  ghost predicate IsLongestPartial(buf: string, tag: string, n: int) {
    IsPartial(buf, tag, n) && forall m :: n < m ==> !IsPartial(buf, tag, m)
  }

  lemma {:induction false} LongestPartialExists(buf: string, tag: string, bound: nat)
    requires forall m :: bound < m ==> !IsPartial(buf, tag, m)
    ensures exists n: nat :: IsLongestPartial(buf, tag, n)
  {
    if IsPartial(buf, tag, bound) {
      assert IsLongestPartial(buf, tag, bound);
    } else {
      LongestPartialExists(buf, tag, bound - 1);
    }
  }

  ghost function PartialLength(buf: string, tag: string): (n: nat)
    ensures n <= |buf| && IsLongestPartial(buf, tag, n)
  {
    LongestPartialExists(buf, tag, |buf|);
    var n: nat :| IsLongestPartial(buf, tag, n);
    n
  }

  lemma LongestPartialIsUnique(buf: string, tag: string, m: int, n: int)
    requires IsLongestPartial(buf, tag, m) && IsLongestPartial(buf, tag, n)
    ensures m == n
  {
  }

  method SplitAtPartial(buf: string, tag: string) returns (safe: string, remaining: string)
    ensures safe + remaining == buf
    ensures IsLongestPartial(buf, tag, |remaining|)
  {
    var length := if |buf| < |tag| - 1 then |buf| else |tag| - 1;
    while length > 0
      invariant length <= |buf| && length <= |tag| - 1
      invariant forall m :: m > 0 && length < m ==> !IsPartial(buf, tag, m)
    {
      if buf[|buf| - length..] == tag[..length] {
        return buf[..|buf| - length], buf[|buf| - length..];
      }
      length := length - 1;
    }
    return buf, "";
  }

  // ----- One call, as a function

  /** What has been read: the text of each tag run in turn, the mode reached, and the text held back. */
  datatype Parse = Parse(runs: seq<string>, inside: bool, held: string)

  ghost function Scan(tags: Tags, inside: bool, buf: string): (r: Parse)
    ensures |r.runs| >= 1
    decreases |buf|
  {
    var tag := Sought(tags, inside);
    var pos := Find(buf, tag);
    if pos == -1 then
      var n := PartialLength(buf, tag);
      Parse([buf[..|buf| - n]], inside, buf[|buf| - n..])
    else
      var rest := Scan(tags, !inside, buf[pos + |tag|..]);
      Parse([buf[..pos]] + rest.runs, rest.inside, rest.held)
  }

  lemma ScanAtTag(tags: Tags, inside: bool, buf: string, pos: nat, after: string, whole: Parse, rest: Parse)
    requires Find(buf, Sought(tags, inside)) == pos && after == buf[pos + |Sought(tags, inside)|..]
    requires whole == Scan(tags, inside, buf) && rest == Scan(tags, !inside, after)
    ensures whole.runs == [buf[..pos]] + rest.runs && whole.inside == rest.inside && whole.held == rest.held
  {
  }

  /** The event for a piece of content; there is none for an empty piece. */
  function Emit(inside: bool, content: string): seq<Event> {
    if content == "" then [] else [Delta(inside, content)]
  }

  /** The events of consecutive runs, the first in mode `inside`. */
  function Events(inside: bool, runs: seq<string>): seq<Event>
    decreases |runs|
  {
    if |runs| == 0 then [] else Emit(inside, runs[0]) + Events(!inside, runs[1..])
  }

  lemma EventsCons(done: seq<Event>, inside: bool, runs: seq<string>, rest: seq<string>)
    requires |runs| > 0 && runs[1..] == rest
    ensures done + Events(inside, runs) == (done + Emit(inside, runs[0])) + Events(!inside, rest)
  {
  }

  /** A state between calls: nothing in the buffer can be emitted yet. */
  ghost predicate Resting(tags: Tags, inside: bool, held: string) {
    Scan(tags, inside, held) == Parse([""], inside, held)
  }

  /** A text that could itself be the start of the tag sought stays in the buffer. */
  lemma ShortTextRests(tags: Tags, inside: bool, held: string)
    requires |held| < |Sought(tags, inside)| && IsPartial(held, Sought(tags, inside), |held|)
    ensures Resting(tags, inside, held)
  {
    FindIsFirstOccurrence(held, Sought(tags, inside));
  }

  /** Every call ends at rest, whatever it was given. */
  lemma {:induction false} ScanRests(tags: Tags, inside: bool, buf: string)
    ensures var p := Scan(tags, inside, buf); Resting(tags, p.inside, p.held)
    decreases |buf|
  {
    var p := Scan(tags, inside, buf);
    var tag := Sought(tags, inside);
    var pos := Find(buf, tag);
    if pos != -1 {
      var after := buf[pos + |tag|..];
      ScanAtTag(tags, inside, buf, pos, after, p, Scan(tags, !inside, after));
      ScanRests(tags, !inside, after);
    } else {
      var held := p.held;
      assert IsPartial(held, tag, |held|);
      ShortTextRests(tags, inside, held);
    }
  }

  class Parser {
    const tags: Tags
    var insideThink: bool
    var buf: string

    ghost predicate Valid()
      reads this
    {
      Resting(tags, insideThink, buf)
    }

    constructor ()
      ensures Valid() && tags == THINK_TAGS && !insideThink && buf == ""
    {
      tags := THINK_TAGS;
      insideThink, buf := false, "";
      new;
      ShortTextRests(tags, insideThink, buf);
    }

    method Feed(text: string) returns (events: seq<Event>)
      modifies this
      ensures Valid()
      ensures var p := Scan(tags, old(insideThink), old(buf) + text);
              events == Events(old(insideThink), p.runs) && insideThink == p.inside && buf == p.held
    {
      buf := buf + text;
      events := [];
      while buf != ""
        invariant Loop(tags, insideThink, buf, events) == Loop(tags, old(insideThink), old(buf) + text, [])
        decreases |buf|
      {
        ghost var emitted := events;
        var tag := Sought(tags, insideThink);
        var pos := Find(buf, tag);
        if pos == -1 {
          var safe, remaining := SplitAtPartial(buf, tag);
          LongestPartialIsUnique(buf, tag, |remaining|, PartialLength(buf, tag));
          if safe != "" {
            events := events + [Delta(insideThink, safe)];
          }
          assert events == emitted + Emit(insideThink, safe);
          buf := remaining;
          break;
        }
        var before := buf[..pos];
        if before != "" {
          events := events + [Delta(insideThink, before)];
        }
        assert events == emitted + Emit(insideThink, before);
        var after := buf[pos + |tag|..];
        LoopAtTag(tags, insideThink, buf, emitted, pos, after, events);
        buf, insideThink := after, !insideThink;
      }
      LoopEndsScan(tags, old(insideThink), old(buf) + text, events, insideThink, buf);
    }
  }

  /** What the loop of `Feed` has still to do, in the loop's own order. */
  ghost function Loop(tags: Tags, inside: bool, buf: string, events: seq<Event>): (seq<Event>, bool, string)
    decreases |buf|
  {
    var tag := Sought(tags, inside);
    var pos := Find(buf, tag);
    if buf == "" then (events, inside, buf)
    else if pos == -1 then
      var safe := buf[..|buf| - PartialLength(buf, tag)];
      (events + Emit(inside, safe), inside, buf[|safe|..])
    else
      Loop(tags, !inside, buf[pos + |tag|..], events + Emit(inside, buf[..pos]))
  }

  lemma LoopAtTag(tags: Tags, inside: bool, buf: string, events: seq<Event>, pos: nat, after: string,
                  events': seq<Event>)
    requires buf != "" && Find(buf, Sought(tags, inside)) == pos && after == buf[pos + |Sought(tags, inside)|..]
    requires events' == events + Emit(inside, buf[..pos])
    ensures Loop(tags, inside, buf, events) == Loop(tags, !inside, after, events')
  {
  }

  lemma LoopWithoutTag(tags: Tags, inside: bool, buf: string, events: seq<Event>, p: Parse)
    requires Find(buf, Sought(tags, inside)) == -1 && p == Scan(tags, inside, buf)
    ensures Loop(tags, inside, buf, events) == (events + Events(inside, p.runs), p.inside, p.held)
  {
    assert p.runs[1..] == [];
    assert Events(inside, p.runs) == Emit(inside, p.runs[0]);
    if buf == "" {
      assert events + Emit(inside, "") == events;
    }
  }

  lemma {:induction false} LoopIsScan(tags: Tags, inside: bool, buf: string, events: seq<Event>)
    ensures var p := Scan(tags, inside, buf);
            Loop(tags, inside, buf, events) == (events + Events(inside, p.runs), p.inside, p.held)
    decreases |buf|
  {
    var tag := Sought(tags, inside);
    var pos := Find(buf, tag);
    var p := Scan(tags, inside, buf);
    if pos == -1 {
      LoopWithoutTag(tags, inside, buf, events, p);
    } else {
      var after := buf[pos + |tag|..];
      var rest := Scan(tags, !inside, after);
      ScanAtTag(tags, inside, buf, pos, after, p, rest);
      EventsCons(events, inside, p.runs, rest.runs);
      LoopAtTag(tags, inside, buf, events, pos, after, events + Emit(inside, buf[..pos]));
      LoopIsScan(tags, !inside, after, events + Emit(inside, buf[..pos]));
    }
  }

  lemma LoopEndsScan(tags: Tags, inside: bool, text: string, events: seq<Event>, inside': bool, held: string)
    requires Loop(tags, inside, text, []) == (events, inside', held)
    ensures Resting(tags, inside', held)
    ensures var p := Scan(tags, inside, text); events == Events(inside, p.runs) && inside' == p.inside && held == p.held
  {
    LoopIsScan(tags, inside, text, []);
    ScanRests(tags, inside, text);
  }
}
