/**
 * What the think-tag parser promises over a whole stream: the result does not depend on where
 * the stream was cut, nothing is lost, and the parse is the only one that meets its description.
 */
module ThinkTagChunks {
  import opened Text
  import opened ThinkTagParser

  // ----- A call on a concatenation

  /** `safe + held` is a text without the tag, split where the parser splits it. */
  ghost predicate HeldAt(tag: Tag, safe: string, held: string) {
    Find(safe + held, tag) == -1 && IsLongestPartial(safe + held, tag, |held|)
  }

  /** A tag or partial tag that starts in `a` and reaches its end leaves a partial tag there. */
  lemma StraddlingTag(a: string, more: string, tag: string, k: nat, m: nat)
    requires k < |a| < k + m <= |a + more| && m <= |tag| && (a + more)[k..k + m] == tag[..m]
    ensures IsPartial(a, tag, |a| - k)
  {
    var slice := (a + more)[k..k + m];
    assert a[k..] == slice[..|a| - k];
    assert slice[..|a| - k] == tag[..|a| - k];
  }

  lemma OccurrenceWithin(a: string, more: string, tag: string, k: int)
    requires k + |tag| <= |a|
    ensures OccursAt(a + more, tag, k) <==> OccursAt(a, tag, k)
  {
    if 0 <= k {
      assert (a + more)[k..k + |tag|] == a[k..k + |tag|];
    }
  }

  lemma OccurrenceBeyond(safe: string, tail: string, tag: string, k: int)
    requires |safe| <= k
    ensures OccursAt(safe + tail, tag, k) <==> OccursAt(tail, tag, k - |safe|)
  {
    if k + |tag| <= |safe + tail| {
      assert (safe + tail)[k..k + |tag|] == tail[k - |safe|..k - |safe| + |tag|];
    }
  }

  /** A tag that reaches into later text starts no earlier than the text held back. */
  lemma OccurrencesStartInHeld(tag: Tag, safe: string, held: string, more: string, k: int)
    requires HeldAt(tag, safe, held)
    ensures OccursAt(safe + held + more, tag, k) <==> OccursAt(held + more, tag, k - |safe|)
  {
    var a := safe + held;
    assert safe + held + more == safe + (held + more);
    FindIsFirstOccurrence(a, tag);
    if |safe| <= k {
      OccurrenceBeyond(safe, held + more, tag, k);
    } else if k + |tag| <= |a| {
      OccurrenceWithin(a, more, tag, k);
    } else if OccursAt(a + more, tag, k) {
      StraddlingTag(a, more, tag, k, |tag|);
    }
  }

  lemma PartialsStartInHeld(tag: Tag, safe: string, held: string, more: string, m: int)
    requires HeldAt(tag, safe, held)
    ensures IsPartial(safe + held + more, tag, m) <==> IsPartial(held + more, tag, m)
  {
    var a, all := safe + held, safe + held + more;
    if 0 < m <= |held + more| {
      assert all[|all| - m..] == (held + more)[|held + more| - m..];
    } else if IsPartial(all, tag, m) && m > 0 {
      PartialReachesBack(a, more, tag, m);
    }
  }

  lemma PartialReachesBack(a: string, more: string, tag: string, m: nat)
    requires IsPartial(a + more, tag, m) && |more| < m
    ensures IsPartial(a, tag, m - |more|)
  {
    var all := a + more;
    if |more| == 0 {
      assert all == a;
    } else {
      StraddlingTag(a, more, tag, |all| - m, m);
    }
  }

  lemma FindInHeld(tag: Tag, safe: string, held: string, more: string)
    requires HeldAt(tag, safe, held)
    ensures var q := Find(held + more, tag);
            Find(safe + held + more, tag) == if q == -1 then -1 else |safe| + q
  {
    var all := safe + held + more;
    FindIsFirstOccurrence(held + more, tag);
    FindIsFirstOccurrence(all, tag);
    var q, r := Find(held + more, tag), Find(all, tag);
    forall k ensures OccursAt(all, tag, k) <==> OccursAt(held + more, tag, k - |safe|) {
      OccurrencesStartInHeld(tag, safe, held, more, k);
    }
    assert q != -1 ==> OccursAt(all, tag, |safe| + q);
    assert r != -1 ==> OccursAt(held + more, tag, r - |safe|);
  }

  lemma PartialInHeld(tag: Tag, safe: string, held: string, more: string)
    requires HeldAt(tag, safe, held)
    ensures PartialLength(safe + held + more, tag) == PartialLength(held + more, tag)
  {
    var all := safe + held + more;
    var n := PartialLength(all, tag);
    forall m ensures IsPartial(all, tag, m) <==> IsPartial(held + more, tag, m) {
      PartialsStartInHeld(tag, safe, held, more, m);
    }
    LongestPartialIsUnique(held + more, tag, n, PartialLength(held + more, tag));
  }

  /** Two consecutive lists of runs as one: the run that the cut divided is joined again. */
  function Splice(first: seq<string>, second: seq<string>): seq<string>
    requires |first| > 0 && |second| > 0
  {
    first[..|first| - 1] + [first[|first| - 1] + second[0]] + second[1..]
  }

  /** `whole` is what `rest` adds to the runs already read. */
  ghost predicate Continues(first: seq<string>, rest: Parse, whole: Parse)
    requires |first| > 0 && |rest.runs| > 0
  {
    whole.runs == Splice(first, rest.runs) && whole.inside == rest.inside && whole.held == rest.held
  }

  lemma ScanWithoutTag(tags: Tags, inside: bool, buf: string, whole: Parse)
    requires Find(buf, Sought(tags, inside)) == -1 && whole == Scan(tags, inside, buf)
    ensures var n := PartialLength(buf, Sought(tags, inside));
            whole.runs == [buf[..|buf| - n]] && whole.inside == inside && whole.held == buf[|buf| - n..]
  {
  }

  /** What follows the text held back is read as if it had arrived with it. */
  lemma ScanAfterHeld(tags: Tags, inside: bool, safe: string, held: string, more: string, rest: Parse, whole: Parse)
    requires HeldAt(Sought(tags, inside), safe, held)
    requires rest == Scan(tags, inside, held + more) && whole == Scan(tags, inside, safe + held + more)
    ensures Continues([safe], rest, whole)
  {
    var tag := Sought(tags, inside);
    var tail := held + more;
    assert safe + held + more == safe + tail;
    FindInHeld(tag, safe, held, more);
    var q := Find(tail, tag);
    if q == -1 {
      PartialInHeld(tag, safe, held, more);
      ScanTailWithoutTag(tags, inside, safe, tail, safe + tail, rest, whole);
    } else {
      ScanTailAtTag(tags, inside, safe, tail, safe + tail, q, rest, whole);
    }
  }

  lemma ScanTailWithoutTag(tags: Tags, inside: bool, safe: string, tail: string, all: string, rest: Parse, whole: Parse)
    requires all == safe + tail && Find(all, Sought(tags, inside)) == Find(tail, Sought(tags, inside)) == -1
    requires PartialLength(all, Sought(tags, inside)) == PartialLength(tail, Sought(tags, inside))
    requires rest == Scan(tags, inside, tail) && whole == Scan(tags, inside, all)
    ensures Continues([safe], rest, whole)
  {
    var n := PartialLength(tail, Sought(tags, inside));
    SlicesBeyond(safe, tail, |tail| - n, |tail| - n);
    ScanBothWithoutTag(tags, inside, safe, tail, all, n, rest, whole);
  }

  lemma ScanBothWithoutTag(tags: Tags, inside: bool, safe: string, tail: string, all: string, n: nat, rest: Parse,
                           whole: Parse)
    requires Find(all, Sought(tags, inside)) == Find(tail, Sought(tags, inside)) == -1
    requires PartialLength(all, Sought(tags, inside)) == PartialLength(tail, Sought(tags, inside)) == n
    requires all[..|all| - n] == safe + tail[..|tail| - n] && all[|all| - n..] == tail[|tail| - n..]
    requires rest == Scan(tags, inside, tail) && whole == Scan(tags, inside, all)
    ensures Continues([safe], rest, whole)
  {
    ScanWithoutTag(tags, inside, tail, rest);
    ScanWithoutTag(tags, inside, all, whole);
    LongerOnlyRun(safe, tail[..|tail| - n], rest, whole);
  }

  lemma LongerOnlyRun(safe: string, run: string, rest: Parse, whole: Parse)
    requires rest.runs == [run] && whole.runs == [safe + run]
    requires whole.inside == rest.inside && whole.held == rest.held
    ensures Continues([safe], rest, whole)
  {
  }

  lemma ScanTailAtTag(tags: Tags, inside: bool, safe: string, tail: string, all: string, q: nat, rest: Parse,
                      whole: Parse)
    requires all == safe + tail && Find(tail, Sought(tags, inside)) == q
    requires Find(all, Sought(tags, inside)) == |safe| + q
    requires rest == Scan(tags, inside, tail) && whole == Scan(tags, inside, all)
    ensures Continues([safe], rest, whole)
  {
    var after := tail[q + |Sought(tags, inside)|..];
    SlicesBeyond(safe, tail, q, q + |Sought(tags, inside)|);
    ScanBothAtTag(tags, inside, safe, tail, all, q, after, Scan(tags, !inside, after), rest, whole);
  }

  lemma ScanBothAtTag(tags: Tags, inside: bool, safe: string, tail: string, all: string, q: nat, after: string,
                      last: Parse, rest: Parse, whole: Parse)
    requires Find(tail, Sought(tags, inside)) == q && Find(all, Sought(tags, inside)) == |safe| + q
    requires after == tail[q + |Sought(tags, inside)|..] == all[|safe| + q + |Sought(tags, inside)|..]
    requires all[..|safe| + q] == safe + tail[..q]
    requires rest == Scan(tags, inside, tail) && whole == Scan(tags, inside, all) && last == Scan(tags, !inside, after)
    ensures Continues([safe], rest, whole)
  {
    ScanAtTag(tags, inside, tail, q, after, rest, last);
    ScanAtTag(tags, inside, all, |safe| + q, after, whole, last);
    LongerFirstRun(safe, tail[..q], last.runs, rest, whole);
  }

  /** More text in front of the first run, and all else the same. */
  lemma LongerFirstRun(safe: string, run: string, more: seq<string>, rest: Parse, whole: Parse)
    requires rest.runs == [run] + more && whole.runs == [safe + run] + more
    requires whole.inside == rest.inside && whole.held == rest.held
    ensures Continues([safe], rest, whole)
  {
  }

  lemma SlicesBeyond(safe: string, tail: string, i: nat, j: nat)
    requires i <= |tail| && j <= |tail|
    ensures (safe + tail)[..|safe| + i] == safe + tail[..i] && (safe + tail)[|safe| + j..] == tail[j..]
  {
  }

  /** Reading `a + b` is reading `a`, then `b` behind whatever `a` left in the buffer. */
  lemma {:induction false} ScanConcat(tags: Tags, inside: bool, a: string, b: string, p: Parse, q: Parse, whole: Parse)
    requires p == Scan(tags, inside, a)
    requires q == Scan(tags, p.inside, p.held + b)
    requires whole == Scan(tags, inside, a + b)
    ensures Continues(p.runs, q, whole)
    decreases |a|
  {
    var tag := Sought(tags, inside);
    var pos := Find(a, tag);
    if pos == -1 {
      ScanWithoutTag(tags, inside, a, p);
      assert a == p.runs[0] + p.held;
      ScanAfterHeld(tags, inside, p.runs[0], p.held, b, q, whole);
    } else {
      var after := a[pos + |tag|..];
      TagFoundInFirst(a, b, tag, pos);
      var p', whole' := Scan(tags, !inside, after), Scan(tags, !inside, after + b);
      ScanAtTag(tags, inside, a, pos, after, p, p');
      ScanAtTag(tags, inside, a + b, pos, after + b, whole, whole');
      ScanConcat(tags, !inside, after, b, p', q, whole');
      SpliceCons(a[..pos], p'.runs, q.runs);
    }
  }

  lemma TagFoundInFirst(a: string, b: string, tag: string, pos: nat)
    requires Find(a, tag) == pos
    ensures Find(a + b, tag) == pos
    ensures (a + b)[pos + |tag|..] == a[pos + |tag|..] + b && (a + b)[..pos] == a[..pos]
  {
    FindIsFirstOccurrence(a, tag);
    FirstOccurrenceExtends(a, tag, pos, b);
    FindIsFirstOccurrence(a + b, tag);
    FirstOccurrenceIsUnique(a + b, tag, pos, Find(a + b, tag));
  }

  lemma FirstOccurrenceExtends(s: string, pat: string, r: nat, more: string)
    requires IsFirstOccurrence(s, pat, r)
    ensures IsFirstOccurrence(s + more, pat, r)
  {
    forall k ensures k <= r ==> (OccursAt(s, pat, k) <==> OccursAt(s + more, pat, k)) {
      if 0 <= k <= r {
        assert (s + more)[k..k + |pat|] == s[k..k + |pat|];
      }
    }
  }

  lemma SpliceCons(head: string, first: seq<string>, second: seq<string>)
    requires |first| > 0 && |second| > 0
    ensures Splice([head] + first, second) == [head] + Splice(first, second)
  {
  }

  // ----- Any way of cutting the stream

  /** Feeding the chunks one by one: the runs of the calls spliced, and the state after the last. */
  ghost function FeedAll(tags: Tags, inside: bool, held: string, chunks: seq<string>): (r: Parse)
    ensures |r.runs| >= 1
    decreases |chunks|
  {
    if |chunks| == 0 then Parse([""], inside, held)
    else
      var first := Scan(tags, inside, held + chunks[0]);
      var rest := FeedAll(tags, first.inside, first.held, chunks[1..]);
      Parse(Splice(first.runs, rest.runs), rest.inside, rest.held)
  }

  function Concat(chunks: seq<string>): string
    decreases |chunks|
  {
    if |chunks| == 0 then "" else chunks[0] + Concat(chunks[1..])
  }

  /** The result of a stream does not depend on where it was cut. */
  lemma {:induction false} CutsDoNotMatter(tags: Tags, inside: bool, held: string, chunks: seq<string>)
    requires Resting(tags, inside, held)
    ensures FeedAll(tags, inside, held, chunks) == Scan(tags, inside, held + Concat(chunks))
    decreases |chunks|
  {
    if |chunks| == 0 {
      assert held + "" == held;
    } else {
      var text, tail := held + chunks[0], chunks[1..];
      var more := Concat(tail);
      assert held + Concat(chunks) == text + more;
      var first := Scan(tags, inside, text);
      ScanRests(tags, inside, text);
      CutsDoNotMatter(tags, first.inside, first.held, tail);
      var rest, whole := Scan(tags, first.inside, first.held + more), Scan(tags, inside, text + more);
      ScanConcat(tags, inside, text, more, first, rest, whole);
      FeedAllCons(tags, inside, held, chunks, first, rest);
    }
  }

  lemma FeedAllCons(tags: Tags, inside: bool, held: string, chunks: seq<string>, first: Parse, rest: Parse)
    requires |chunks| > 0 && first == Scan(tags, inside, held + chunks[0])
    requires rest == FeedAll(tags, first.inside, first.held, chunks[1..])
    ensures FeedAll(tags, inside, held, chunks) == Parse(Splice(first.runs, rest.runs), rest.inside, rest.held)
  {
  }

  // ----- The events themselves

  /** The events of a stream with a mark wherever a tag was passed. */
  datatype Item = Emitted(event: Event) | Flip

  function OwnItems(inside: bool, content: string): seq<Item> {
    if content == "" then [] else [Emitted(Delta(inside, content))]
  }

  function Trace(inside: bool, runs: seq<string>): seq<Item>
    decreases |runs|
  {
    if |runs| == 0 then []
    else if |runs| == 1 then OwnItems(inside, runs[0])
    else OwnItems(inside, runs[0]) + ([Flip] + Trace(!inside, runs[1..]))
  }

  function EventsIn(trace: seq<Item>): seq<Event> {
    if |trace| == 0 then []
    else (if trace[0].Emitted? then [trace[0].event] else []) + EventsIn(trace[1..])
  }

  /** Joins neighbouring events of one kind; a tag between them keeps them apart. */
  function Merge(trace: seq<Item>): seq<Item> {
    if |trace| == 0 then []
    else
      var rest := Merge(trace[1..]);
      if trace[0].Emitted? && |rest| > 0 && rest[0].Emitted? &&
         trace[0].event.ThinkingDelta? == rest[0].event.ThinkingDelta?
      then [Emitted(Delta(trace[0].event.ThinkingDelta?, trace[0].event.content + rest[0].event.content))] + rest[1..]
      else [trace[0]] + rest
  }

  /** The events of every call in turn, with the tags passed. */
  ghost function StreamTrace(tags: Tags, inside: bool, held: string, chunks: seq<string>): seq<Item>
    decreases |chunks|
  {
    if |chunks| == 0 then []
    else
      var first := Scan(tags, inside, held + chunks[0]);
      Trace(inside, first.runs) + StreamTrace(tags, first.inside, first.held, chunks[1..])
  }

  /** What `Feed` returns, call by call. */
  ghost function StreamEvents(tags: Tags, inside: bool, held: string, chunks: seq<string>): seq<Event>
    decreases |chunks|
  {
    if |chunks| == 0 then []
    else
      var first := Scan(tags, inside, held + chunks[0]);
      Events(inside, first.runs) + StreamEvents(tags, first.inside, first.held, chunks[1..])
  }

  lemma {:induction false} EventsInConcat(a: seq<Item>, b: seq<Item>)
    ensures EventsIn(a + b) == EventsIn(a) + EventsIn(b)
    decreases |a|
  {
    if |a| == 0 {
      assert a + b == b;
    } else {
      var item, later := a[0], a[1..];
      EventsInConcat(later, b);
      EventsInCons(item, later + b);
      EventsInCons(item, later);
      assert a + b == [item] + (later + b);
      assert a == [item] + later;
      var own, rest, last := if item.Emitted? then [item.event] else [], EventsIn(later), EventsIn(b);
      assert own + (rest + last) == (own + rest) + last;
    }
  }

  lemma EventsInCons(item: Item, later: seq<Item>)
    ensures EventsIn([item] + later) == (if item.Emitted? then [item.event] else []) + EventsIn(later)
  {
    assert ([item] + later)[1..] == later;
  }

  lemma {:induction false} EventsInTrace(inside: bool, runs: seq<string>)
    ensures EventsIn(Trace(inside, runs)) == Events(inside, runs)
    decreases |runs|
  {
    if |runs| > 0 {
      EventsInTrace(!inside, runs[1..]);
      var own, later := OwnItems(inside, runs[0]), [Flip] + Trace(!inside, runs[1..]);
      EventsInConcat(own, later);
      assert EventsIn(own) == Emit(inside, runs[0]);
      assert later[1..] == Trace(!inside, runs[1..]);
    }
  }

  /** A stream's trace shows exactly the events that the calls return. */
  lemma {:induction false} TraceShowsEvents(tags: Tags, inside: bool, held: string, chunks: seq<string>)
    ensures EventsIn(StreamTrace(tags, inside, held, chunks)) == StreamEvents(tags, inside, held, chunks)
    decreases |chunks|
  {
    if |chunks| > 0 {
      var first := Scan(tags, inside, held + chunks[0]);
      TraceShowsEvents(tags, first.inside, first.held, chunks[1..]);
      EventsInTrace(inside, first.runs);
      EventsInConcat(Trace(inside, first.runs), StreamTrace(tags, first.inside, first.held, chunks[1..]));
    }
  }

  function ModeAt(inside: bool, k: nat): bool
    decreases k
  {
    if k == 0 then inside else ModeAt(!inside, k - 1)
  }

  lemma {:induction false} ModeAfterScan(tags: Tags, inside: bool, buf: string, p: Parse)
    requires p == Scan(tags, inside, buf)
    ensures p.inside == ModeAt(inside, |p.runs| - 1)
    decreases |buf|
  {
    var tag := Sought(tags, inside);
    var pos := Find(buf, tag);
    if pos == -1 {
      ScanWithoutTag(tags, inside, buf, p);
    } else {
      var after := buf[pos + |tag|..];
      var rest := Scan(tags, !inside, after);
      ScanAtTag(tags, inside, buf, pos, after, p, rest);
      ModeAfterScan(tags, !inside, after, rest);
    }
  }

  /** Text that continues the run on its right joins the first event there, if that run has one. */
  lemma MergeWithinRun(inside: bool, content: string, later: seq<Item>, second: seq<string>)
    requires |second| > 0 && Merge(later) == Trace(inside, second)
    ensures Merge(OwnItems(inside, content) + later) == Trace(inside, [content + second[0]] + second[1..])
  {
    var joined := [content + second[0]] + second[1..];
    if content == "" {
      assert "" + second[0] == second[0];
      assert joined == second;
      assert OwnItems(inside, content) + later == later;
    } else {
      MergeCons(Emitted(Delta(inside, content)), later, Trace(inside, second));
      TraceHead(inside, second[0], second[1..]);
      TraceHead(inside, content + second[0], second[1..]);
      assert [second[0]] + second[1..] == second;
      JoinedItems(inside, content, second[0], TraceAfter(inside, second[1..]));
    }
  }

  lemma MergeCons(item: Item, later: seq<Item>, merged: seq<Item>)
    requires merged == Merge(later)
    ensures Merge([item] + later) ==
            if item.Emitted? && |merged| > 0 && merged[0].Emitted? &&
               item.event.ThinkingDelta? == merged[0].event.ThinkingDelta?
            then [Emitted(Delta(item.event.ThinkingDelta?, item.event.content + merged[0].event.content))] + merged[1..]
            else [item] + merged
  {
    assert ([item] + later)[1..] == later;
  }

  /** What a trace shows beyond its first run. */
  function TraceAfter(inside: bool, tail: seq<string>): seq<Item> {
    if |tail| == 0 then [] else [Flip] + Trace(!inside, tail)
  }

  lemma JoinedItems(inside: bool, content: string, next: string, after: seq<Item>)
    requires content != ""
    requires |after| > 0 ==> after[0].Flip?
    ensures var items := OwnItems(inside, next) + after;
            if next == "" then [Emitted(Delta(inside, content))] + items == OwnItems(inside, content + next) + after
            else items[0] == Emitted(Delta(inside, next)) &&
                 [Emitted(Delta(inside, content + next))] + items[1..] == OwnItems(inside, content + next) + after
  {
    var items := OwnItems(inside, next) + after;
    if next == "" {
      assert content + next == content && items == after;
    } else {
      assert items[1..] == after;
    }
  }

  lemma TraceHead(inside: bool, content: string, tail: seq<string>)
    ensures Trace(inside, [content] + tail) == OwnItems(inside, content) + TraceAfter(inside, tail)
  {
    assert ([content] + tail)[1..] == tail;
    assert OwnItems(inside, content) + [] == OwnItems(inside, content);
  }

  /** Events before a tag do not join those after it. */
  lemma MergeBeforeFlip(inside: bool, content: string, later: seq<Item>)
    ensures Merge(OwnItems(inside, content) + ([Flip] + later)) == OwnItems(inside, content) + ([Flip] + Merge(later))
  {
    var flipped := [Flip] + later;
    MergeCons(Flip, later, Merge(later));
    if content == "" {
      assert OwnItems(inside, content) + flipped == flipped;
      assert OwnItems(inside, content) + ([Flip] + Merge(later)) == [Flip] + Merge(later);
    } else {
      MergeCons(Emitted(Delta(inside, content)), flipped, [Flip] + Merge(later));
    }
  }

  lemma {:induction false} MergeSplices(inside: bool, first: seq<string>, later: seq<Item>, second: seq<string>)
    requires |first| > 0 && |second| > 0
    requires Merge(later) == Trace(ModeAt(inside, |first| - 1), second)
    ensures Merge(Trace(inside, first) + later) == Trace(inside, Splice(first, second))
    decreases |first|
  {
    if |first| == 1 {
      assert Trace(inside, first) == OwnItems(inside, first[0]);
      MergeWithinRun(inside, first[0], later, second);
      assert Splice(first, second) == [first[0] + second[0]] + second[1..];
    } else {
      var tail := first[1..];
      assert [first[0]] + tail == first;
      MergeSplices(!inside, tail, later, second);
      SpliceCons(first[0], tail, second);
      MergeBeforeFlip(inside, first[0], Trace(!inside, tail) + later);
      TraceCons(inside, first[0], tail, later);
      TraceCons(inside, first[0], Splice(tail, second), []);
    }
  }

  lemma TraceCons(inside: bool, content: string, tail: seq<string>, later: seq<Item>)
    requires |tail| > 0
    ensures Trace(inside, [content] + tail) + later ==
            OwnItems(inside, content) + ([Flip] + (Trace(!inside, tail) + later))
    ensures later == [] ==>
            Trace(inside, [content] + tail) == OwnItems(inside, content) + ([Flip] + Trace(!inside, tail))
  {
    var runs := [content] + tail;
    assert runs[1..] == tail;
  }

  /** The events of the separate calls, merged within each tag run, are those of one call on the whole text. */
  lemma {:induction false} CutsDoNotMatterForEvents(tags: Tags, inside: bool, held: string, chunks: seq<string>)
    ensures Merge(StreamTrace(tags, inside, held, chunks)) == Trace(inside, FeedAll(tags, inside, held, chunks).runs)
    decreases |chunks|
  {
    if |chunks| > 0 {
      var first := Scan(tags, inside, held + chunks[0]);
      CutsDoNotMatterForEvents(tags, first.inside, first.held, chunks[1..]);
      EventsOfFirstChunk(tags, inside, held, chunks, first);
    }
  }

  lemma EventsOfFirstChunk(tags: Tags, inside: bool, held: string, chunks: seq<string>, first: Parse)
    requires |chunks| > 0 && first == Scan(tags, inside, held + chunks[0])
    requires Merge(StreamTrace(tags, first.inside, first.held, chunks[1..])) ==
             Trace(first.inside, FeedAll(tags, first.inside, first.held, chunks[1..]).runs)
    ensures Merge(StreamTrace(tags, inside, held, chunks)) == Trace(inside, FeedAll(tags, inside, held, chunks).runs)
  {
    var tail := chunks[1..];
    var later, rest := StreamTrace(tags, first.inside, first.held, tail), FeedAll(tags, first.inside, first.held, tail);
    ModeAfterScan(tags, inside, held + chunks[0], first);
    StreamCons(tags, inside, held, chunks, first, later, rest);
    MergeSplices(inside, first.runs, later, rest.runs);
  }

  lemma StreamCons(tags: Tags, inside: bool, held: string, chunks: seq<string>, first: Parse, later: seq<Item>,
                   rest: Parse)
    requires |chunks| > 0 && first == Scan(tags, inside, held + chunks[0])
    requires later == StreamTrace(tags, first.inside, first.held, chunks[1..])
    requires rest == FeedAll(tags, first.inside, first.held, chunks[1..])
    ensures StreamTrace(tags, inside, held, chunks) == Trace(inside, first.runs) + later
    ensures FeedAll(tags, inside, held, chunks).runs == Splice(first.runs, rest.runs)
  {
    FeedAllCons(tags, inside, held, chunks, first, rest);
  }

  /**
   * Over a whole stream from the start, any two ways of cutting one text give the same parse and the same merged
   * events.
   */
  lemma SameTextSameStream(tags: Tags, a: seq<string>, b: seq<string>)
    requires Concat(a) == Concat(b)
    ensures FeedAll(tags, false, "", a) == FeedAll(tags, false, "", b)
    ensures Merge(StreamTrace(tags, false, "", a)) == Merge(StreamTrace(tags, false, "", b))
  {
    ShortTextRests(tags, false, "");
    CutsDoNotMatter(tags, false, "", a);
    CutsDoNotMatter(tags, false, "", b);
    CutsDoNotMatterForEvents(tags, false, "", a);
    CutsDoNotMatterForEvents(tags, false, "", b);
  }

  // ----- What a parse is, without the scanner

  /** The input again: each tag put back where the mode changed, the text held back at the end. */
  function Restored(tags: Tags, inside: bool, runs: seq<string>, held: string): string
    decreases |runs|
  {
    if |runs| == 0 then held
    else if |runs| == 1 then runs[0] + held
    else runs[0] + (if inside then tags.close else tags.open) + Restored(tags, !inside, runs[1..], held)
  }

  /** The tag behind run `k`: thinking ends with the closing tag, visible text with the opening one. */
  function TagBehind(tags: Tags, inside: bool, k: nat): Tag {
    if (k % 2 == 0) == inside then tags.close else tags.open
  }

  /** Run `k` stops at the first tag that can end it. */
  ghost predicate StopsAtTag(tags: Tags, inside: bool, runs: seq<string>, k: int)
    requires 0 <= k < |runs|
  {
    var tag := TagBehind(tags, inside, k);
    IsFirstOccurrence(runs[k] + tag, tag, |runs[k]|)
  }

  /** The mode after the last run, and the text held back behind it. */
  ghost predicate EndsAtHeld(tags: Tags, inside: bool, runs: seq<string>, mode: bool, held: string)
    requires |runs| > 0
  {
    (mode <==> (|runs| % 2 == 1) == inside) && HeldAt(TagBehind(tags, inside, |runs| - 1), runs[|runs| - 1], held)
  }

  /**
   * `p` accounts for every character of `input`; every run but the last stops at the first tag that
   * ends it; the last run holds no tag; and what is held back is the longest suffix that could start one.
   */
  ghost predicate IsParse(tags: Tags, inside: bool, input: string, p: Parse) {
    && |p.runs| > 0
    && Restored(tags, inside, p.runs, p.held) == input
    && (forall k :: 0 <= k < |p.runs| - 1 ==> StopsAtTag(tags, inside, p.runs, k))
    && EndsAtHeld(tags, inside, p.runs, p.inside, p.held)
  }

  lemma {:induction false} ScanIsParse(tags: Tags, inside: bool, buf: string, p: Parse)
    requires p == Scan(tags, inside, buf)
    ensures IsParse(tags, inside, buf, p)
    decreases |buf|
  {
    var tag := Sought(tags, inside);
    var pos := Find(buf, tag);
    if pos == -1 {
      ScanWithoutTag(tags, inside, buf, p);
      assert buf == p.runs[0] + p.held;
    } else {
      var after := buf[pos + |tag|..];
      var rest := Scan(tags, !inside, after);
      ScanAtTag(tags, inside, buf, pos, after, p, rest);
      ScanIsParse(tags, !inside, after, rest);
      ParseAtTag(tags, inside, buf, pos, after, rest, p);
    }
  }

  lemma ParseAtTag(tags: Tags, inside: bool, buf: string, pos: nat, after: string, rest: Parse, p: Parse)
    requires Find(buf, Sought(tags, inside)) == pos && after == buf[pos + |Sought(tags, inside)|..]
    requires IsParse(tags, !inside, after, rest)
    requires p.runs == [buf[..pos]] + rest.runs && p.inside == rest.inside && p.held == rest.held
    ensures IsParse(tags, inside, buf, p)
  {
    var tag := Sought(tags, inside);
    FindIsFirstOccurrence(buf, tag);
    assert buf == buf[..pos] + tag + after;
    FirstOccurrenceRestricts(buf[..pos] + tag, after, tag, pos);
    ParseCons(tags, inside, buf[..pos], after, rest, p);
  }

  lemma ParseCons(tags: Tags, inside: bool, first: string, after: string, rest: Parse, p: Parse)
    requires IsFirstOccurrence(first + Sought(tags, inside), Sought(tags, inside), |first|)
    requires IsParse(tags, !inside, after, rest)
    requires p.runs == [first] + rest.runs && p.inside == rest.inside && p.held == rest.held
    ensures IsParse(tags, inside, first + Sought(tags, inside) + after, p)
  {
    RestoredCons(tags, inside, first, rest.runs, p.held);
    RunsStop(tags, inside, !inside, first, rest.runs, p.runs);
    EndShift(tags, inside, first, rest.runs, p.runs, p.inside, p.held);
  }

  lemma EndShift(tags: Tags, inside: bool, first: string, rest: seq<string>, runs: seq<string>, mode: bool,
                 held: string)
    requires |rest| > 0 && runs == [first] + rest && EndsAtHeld(tags, !inside, rest, mode, held)
    ensures EndsAtHeld(tags, inside, runs, mode, held)
  {
    TagBehindShift(tags, inside, |rest|);
    assert runs[|rest|] == rest[|rest| - 1];
  }

  lemma RestoredCons(tags: Tags, inside: bool, first: string, rest: seq<string>, held: string)
    requires |rest| > 0
    ensures Restored(tags, inside, [first] + rest, held) ==
            first + Sought(tags, inside) + Restored(tags, !inside, rest, held)
  {
    assert ([first] + rest)[1..] == rest;
  }

  lemma TagBehindShift(tags: Tags, inside: bool, k: nat)
    requires k > 0
    ensures TagBehind(tags, inside, k) == TagBehind(tags, !inside, k - 1)
  {
  }

  lemma RunsStop(tags: Tags, inside: bool, mode: bool, first: string, rest: seq<string>, runs: seq<string>)
    requires mode == !inside && IsFirstOccurrence(first + Sought(tags, inside), Sought(tags, inside), |first|)
    requires forall k :: 0 <= k < |rest| - 1 ==> StopsAtTag(tags, mode, rest, k)
    requires runs == [first] + rest
    ensures forall k :: 0 <= k < |runs| - 1 ==> StopsAtTag(tags, inside, runs, k)
  {
    assert runs[1..] == rest;
    forall k | 0 <= k < |runs| - 1 ensures StopsAtTag(tags, inside, runs, k) {
      if k > 0 {
        StopsAtTagShift(tags, inside, runs, rest, k);
        assert StopsAtTag(tags, mode, rest, k - 1);
      }
    }
  }

  lemma StopsAtTagShift(tags: Tags, inside: bool, runs: seq<string>, rest: seq<string>, k: int)
    requires 0 < k < |runs| && runs[1..] == rest
    ensures StopsAtTag(tags, inside, runs, k) <==> StopsAtTag(tags, !inside, rest, k - 1)
  {
    TagBehindShift(tags, inside, k);
    assert rest[k - 1] == runs[k];
  }

  lemma FirstOccurrenceRestricts(s: string, more: string, pat: string, r: nat)
    requires IsFirstOccurrence(s + more, pat, r) && r + |pat| <= |s|
    ensures IsFirstOccurrence(s, pat, r)
  {
    forall k ensures k <= r ==> (OccursAt(s, pat, k) <==> OccursAt(s + more, pat, k)) {
      if k <= r {
        OccurrenceWithin(s, more, pat, k);
      }
    }
  }

  /** Nothing but the scanner's answer meets that description. */
  lemma {:induction false} ParseIsUnique(tags: Tags, inside: bool, input: string, p: Parse, scanned: Parse)
    requires IsParse(tags, inside, input, p) && scanned == Scan(tags, inside, input)
    ensures p == scanned
    decreases |p.runs|
  {
    if |p.runs| == 1 {
      OnlyRun(tags, inside, input, p, scanned);
    } else {
      var rest := p.(runs := p.runs[1..]);
      var after := ParseSplit(tags, inside, input, p, rest);
      var scannedRest := Scan(tags, !inside, after);
      ParseIsUnique(tags, !inside, after, rest, scannedRest);
      SameWithFirstRun(tags, inside, input, after, p, rest, scanned);
    }
  }

  lemma SameWithFirstRun(tags: Tags, inside: bool, input: string, after: string, p: Parse, rest: Parse, scanned: Parse)
    requires |p.runs| > 1 && rest == p.(runs := p.runs[1..])
    requires var tag, pos := Sought(tags, inside), |p.runs[0]|;
             Find(input, tag) == pos && input[pos + |tag|..] == after && input[..pos] == p.runs[0]
    requires scanned == Scan(tags, inside, input) && rest == Scan(tags, !inside, after)
    ensures p == scanned
  {
    ScanAtTag(tags, inside, input, |p.runs[0]|, after, scanned, rest);
    assert p.runs == [p.runs[0]] + rest.runs;
  }

  lemma OnlyRun(tags: Tags, inside: bool, input: string, p: Parse, scanned: Parse)
    requires |p.runs| == 1 && IsParse(tags, inside, input, p) && scanned == Scan(tags, inside, input)
    ensures p == scanned
  {
    assert Restored(tags, inside, p.runs, p.held) == p.runs[0] + p.held;
    assert TagBehind(tags, inside, 0) == Sought(tags, inside);
    OnlyRunIsScanned(tags, inside, p.runs[0], p.held, scanned);
    assert p.runs == [p.runs[0]];
  }

  lemma OnlyRunIsScanned(tags: Tags, inside: bool, run: string, held: string, scanned: Parse)
    requires HeldAt(Sought(tags, inside), run, held) && scanned == Scan(tags, inside, run + held)
    ensures scanned == Parse([run], inside, held)
  {
    var input, tag := run + held, Sought(tags, inside);
    LongestPartialIsUnique(input, tag, |held|, PartialLength(input, tag));
    ScanWithoutTag(tags, inside, input, scanned);
    assert input[..|run|] == run && input[|run|..] == held;
  }

  lemma ParseSplit(tags: Tags, inside: bool, input: string, p: Parse, rest: Parse) returns (after: string)
    requires |p.runs| > 1 && IsParse(tags, inside, input, p) && rest == p.(runs := p.runs[1..])
    ensures var tag, pos := Sought(tags, inside), |p.runs[0]|;
            Find(input, tag) == pos && input[pos + |tag|..] == after && input[..pos] == p.runs[0]
    ensures |after| < |input| && IsParse(tags, !inside, after, rest)
  {
    after := Restored(tags, !inside, rest.runs, p.held);
    ParseFirstRun(tags, inside, input, p, after);
    ParseTail(tags, inside, p, rest, after);
  }

  lemma ParseFirstRun(tags: Tags, inside: bool, input: string, p: Parse, after: string)
    requires |p.runs| > 1 && IsParse(tags, inside, input, p) && after == Restored(tags, !inside, p.runs[1..], p.held)
    ensures var tag, pos := Sought(tags, inside), |p.runs[0]|;
            Find(input, tag) == pos && input[pos + |tag|..] == after && input[..pos] == p.runs[0]
  {
    var tag, pos := Sought(tags, inside), |p.runs[0]|;
    assert input == p.runs[0] + tag + after;
    assert StopsAtTag(tags, inside, p.runs, 0);
    FirstOccurrenceExtends(p.runs[0] + tag, tag, pos, after);
    FindIsFirstOccurrence(input, tag);
    FirstOccurrenceIsUnique(input, tag, pos, Find(input, tag));
  }

  lemma ParseTail(tags: Tags, inside: bool, p: Parse, rest: Parse, after: string)
    requires |p.runs| > 1 && rest == p.(runs := p.runs[1..])
    requires EndsAtHeld(tags, inside, p.runs, p.inside, p.held)
    requires forall k :: 0 <= k < |p.runs| - 1 ==> StopsAtTag(tags, inside, p.runs, k)
    requires after == Restored(tags, !inside, rest.runs, p.held)
    ensures IsParse(tags, !inside, after, rest)
  {
    var mode := !inside;
    forall k | 0 <= k < |rest.runs| - 1 ensures StopsAtTag(tags, mode, rest.runs, k) {
      StopsAtTagShift(tags, inside, p.runs, rest.runs, k + 1);
      assert StopsAtTag(tags, inside, p.runs, k + 1);
    }
  }
}
