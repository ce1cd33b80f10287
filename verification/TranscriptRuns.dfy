/** What the reader finds after any run of appends, failed writes and restarts. */
module TranscriptRuns {
  import opened Transcript
  import opened Options

  // ----- A consecutively linked end of the file is the chain

  /** What the entries' random uuids are taken to be. */
  ghost predicate HaveOwnUuids(entries: seq<Entry>) {
    && (forall i, j :: 0 <= i < j < |entries| ==> entries[i].uuid != entries[j].uuid)
    && (forall i :: 0 <= i < |entries| ==> entries[i].uuid != "")
  }

  ghost predicate IsRoot(entries: seq<Entry>, e: Entry) {
    forall i :: 0 <= i < |entries| ==> e.parent != Some(entries[i].uuid)
  }

  ghost predicate FollowsAt(entries: seq<Entry>, i: int) {
    0 < i < |entries| ==> entries[i].parent == Some(entries[i - 1].uuid)
  }

  /** The entries from `k` on are linked each to the one before, and the first of them leads to no other entry. */
  ghost predicate LinkedFrom(entries: seq<Entry>, k: nat) {
    && (forall i :: i > k ==> FollowsAt(entries, i))
    && (k < |entries| ==> IsRoot(entries, entries[k]))
  }

  ghost predicate IsIndexedAt(index: map<string, Entry>, entries: seq<Entry>, i: int) {
    0 <= i < |entries| ==> entries[i].uuid in index && index[entries[i].uuid] == entries[i]
  }

  lemma {:induction false} IndexAt(entries: seq<Entry>, i: int)
    requires HaveOwnUuids(entries)
    ensures IsIndexedAt(Index(entries), entries, i)
  {
    if 0 <= i < |entries| - 1 {
      IndexAt(entries[..|entries| - 1], i);
    }
  }

  /** Walking back over entries that are linked, from one that leads to no other, collects them all. */
  lemma {:induction false} WalkCollects(index: map<string, Entry>, chain: seq<Entry>, i: nat, seen: set<string>)
    requires IsByUuid(index)
    requires i < |chain| && IsLinked(index, chain) && NoRepeats(chain) && ParentOf(index, chain[0]).None?
    requires chain[i].uuid in index
    requires forall j :: 0 <= j <= i ==> chain[j].uuid !in seen
    ensures Walk(index, chain[i], seen) == chain[..i + 1]
    decreases i
  {
    var current := chain[i];
    if i > 0 {
      var parent := chain[i - 1];
      assert IsLinkedAt(index, chain, i);
      WalkCollects(index, chain, i - 1, seen + {current.uuid});
      assert chain[..i + 1] == chain[..i] + [current];
    } else {
      assert [] + [current] == chain[..i + 1];
    }
  }

  lemma NoLinkInIndex(entries: seq<Entry>, e: Entry)
    requires IsRoot(entries, e)
    ensures ParentOf(Index(entries), e).None?
  {
    forall u | u in Index(entries) ensures e.parent != Some(u) {
      IndexHolds(entries, u);
    }
  }

  lemma LinkedEndIsChain(entries: seq<Entry>, k: nat)
    requires k < |entries| && HaveOwnUuids(entries) && LinkedFrom(entries, k)
    ensures ChainOf(entries) == entries[k..]
  {
    var index, chain, last := Index(entries), entries[k..], |entries| - 1;
    forall i ensures IsIndexedAt(index, entries, i) {
      IndexAt(entries, i);
    }
    NoLinkInIndex(entries, entries[k]);
    LinkedEnd(entries, k, index, chain);
    assert chain[last - k] == entries[last] && chain[0] == entries[k];
    WalkCollects(index, chain, last - k, {});
    assert chain[..last - k + 1] == chain;
  }

  lemma LinkedEnd(entries: seq<Entry>, k: nat, index: map<string, Entry>, chain: seq<Entry>)
    requires k < |entries| && HaveOwnUuids(entries) && LinkedFrom(entries, k) && chain == entries[k..]
    requires forall i :: IsIndexedAt(index, entries, i)
    ensures IsLinked(index, chain) && NoRepeats(chain)
  {
    forall i ensures IsLinkedAt(index, chain, i) {
      if 0 < i < |chain| {
        assert IsIndexedAt(index, entries, k + i - 1);
        assert FollowsAt(entries, k + i);
        assert chain[i] == entries[k + i] && chain[i - 1] == entries[k + i - 1];
      }
    }
  }

  // ----- A log of which some lines were lost

  /** Every line still holds the entry that was written to it, or cannot be read any more. */
  ghost predicate IsLeftOf(lines: seq<Line>, written: seq<Entry>) {
    |lines| == |written| && forall i :: 0 <= i < |lines| && lines[i].Readable? ==> lines[i].entry == written[i]
  }

  lemma {:induction false} ReadableWereWritten(lines: seq<Line>, written: seq<Entry>, whole: seq<Entry>)
    requires IsLeftOf(lines, written) && written <= whole && HaveOwnUuids(whole)
    ensures HaveOwnUuids(ReadableIn(lines))
    ensures forall e :: e in ReadableIn(lines) ==>
            exists i :: 0 <= i < |lines| && lines[i] == Readable(e) && whole[i] == e
  {
    if |lines| > 0 {
      var n := |lines| - 1;
      var before, rest := ReadableIn(lines[..n]), ReadableIn(lines);
      ReadableWereWritten(lines[..n], written[..n], whole);
      forall e | e in rest ensures exists i :: 0 <= i < |lines| && lines[i] == Readable(e) && whole[i] == e {
        if e in before {
          var i :| 0 <= i < n && lines[..n][i] == Readable(e) && whole[i] == e;
          assert lines[i] == Readable(e);
        } else {
          assert lines[n] == Readable(e);
        }
      }
      forall i, j | 0 <= i < j < |rest| ensures rest[i].uuid != rest[j].uuid {
        assert rest[i] == before[i] && before[i] in before;
      }
    }
  }

  lemma {:induction false} ReadableEnd(lines: seq<Line>, written: seq<Entry>, from: nat, to: nat)
    requires IsLeftOf(lines, written) && from <= to <= |lines|
    requires forall i :: from <= i < to ==> lines[i].Readable?
    requires forall i :: to <= i < |lines| ==> lines[i].Unreadable?
    ensures ReadableIn(lines) == ReadableIn(lines[..from]) + written[from..to]
    decreases |lines|
  {
    var n := |lines| - 1;
    if from < |lines| {
      var to' := if to <= n then to else n;
      ReadableEnd(lines[..n], written[..n], from, to');
      assert lines[..n][..from] == lines[..from] && written[..n][from..to'] == written[from..to'];
      OneMoreLine(lines, written, from, to, ReadableIn(lines[..from]));
    } else {
      assert lines[..from] == lines && written[from..to] == [];
    }
  }

  lemma OneMoreLine(lines: seq<Line>, written: seq<Entry>, from: nat, to: nat, front: seq<Entry>)
    requires |lines| == |written| && from < |lines| && from <= to <= |lines|
    requires var n := |lines| - 1;
             && ReadableIn(lines[..n]) == front + written[from..if to <= n then to else n]
             && lines[n] == (if to <= n then Unreadable else Readable(written[n]))
    ensures ReadableIn(lines) == front + written[from..to]
  {
    var n := |lines| - 1;
    if to > n {
      var end := written[from..n];
      assert written[from..to] == end + [written[n]];
      assert (front + end) + [written[n]] == front + (end + [written[n]]);
    } else {
      var end := written[from..to];
      assert (front + end) + [] == front + end;
    }
  }

  /**
   * Of a log that was written by one writer, and some lines of which cannot be read any more, the chain is exactly
   * the readable entries after the last lost line before the final readable one.
   */
  lemma ChainAfterLoss(lines: seq<Line>, written: seq<Entry>, from: nat, to: nat)
    requires IsLeftOf(lines, written) && HaveOwnUuids(written) && LinkedFrom(written, 0)
    requires from < to <= |lines|
    requires forall i :: from <= i < to ==> lines[i].Readable?
    requires forall i :: to <= i < |lines| ==> lines[i].Unreadable?
    requires from == 0 || lines[from - 1].Unreadable?
    ensures ChainOf(ReadAll(Log(lines, Clean))) == written[from..to]
  {
    var rest, front, end := ReadableIn(lines), ReadableIn(lines[..from]), written[from..to];
    assert rest + [] == rest;
    ReadableEnd(lines, written, from, to);
    ReadableWereWritten(lines, written, written);
    EndStaysLinked(lines, written, rest, front, end, from);
    LinkedEndIsChain(rest, |front|);
    assert rest[|front|..] == end;
  }

  lemma EndStaysLinked(lines: seq<Line>, written: seq<Entry>, rest: seq<Entry>, front: seq<Entry>, end: seq<Entry>,
                       from: nat)
    requires |lines| == |written| && HaveOwnUuids(written) && LinkedFrom(written, 0)
    requires rest == front + end && |end| > 0 && from + |end| <= |written| && end == written[from..from + |end|]
    requires forall e :: e in rest ==> exists i :: 0 <= i < |lines| && lines[i] == Readable(e) && written[i] == e
    requires from == 0 || lines[from - 1].Unreadable?
    ensures LinkedFrom(rest, |front|)
  {
    var k := |front|;
    assert rest[k] == end[0] == written[from];
    forall j | 0 <= j < |rest| ensures rest[k].parent != Some(rest[j].uuid) {
      var e := rest[j];
      assert e in rest;
      var i :| 0 <= i < |lines| && lines[i] == Readable(e) && written[i] == e;
      assert FollowsAt(written, from) && IsRoot(written, written[0]);
    }
    EndFollows(written, rest, front, end, from);
  }

  lemma EndFollows(written: seq<Entry>, rest: seq<Entry>, front: seq<Entry>, end: seq<Entry>, from: nat)
    requires LinkedFrom(written, 0) && rest == front + end
    requires from + |end| <= |written| && end == written[from..from + |end|]
    ensures forall i :: i > |front| ==> FollowsAt(rest, i)
  {
    var k := |front|;
    forall i | i > k ensures FollowsAt(rest, i) {
      if i < |rest| {
        var w := from + (i - k);
        assert FollowsAt(written, w);
        assert rest[i] == end[i - k] == written[w] && rest[i - 1] == end[i - k - 1] == written[w - 1];
      }
    }
  }
}
