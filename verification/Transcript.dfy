/** The append-only transcript of a session: a writer that links every entry to the one before, and the reader. */
module Transcript {
  import opened Options
  import opened Messages

  datatype Payload =
    | UserMessage(content: string)
    | AssistantMessage(blocks: seq<Content>)
    | ToolCall(id: string, output: string, isError: bool, synthetic: bool, cancelPhase: Option<string>)
    | CompactBoundary(summary: string)
    | SessionMeta(key: string, value: string)

  /** An entry as it is stored. */
  datatype Entry = Entry(uuid: string, parent: Option<string>, timestamp: string, payload: Payload)

  /** A complete line of the file: an entry, or text that does not parse as one. */
  datatype Line = Readable(entry: Entry) | Unreadable

  /**
   * What follows the last line end: nothing, a part of an entry, or a whole entry whose line end is missing.
   * The next entry is written right behind it, on the same line.
   */
  datatype Tail = Clean | Fragment | Unterminated(entry: Entry)

  datatype Log = Log(lines: seq<Line>, tail: Tail)

  /** Writing one more line. Text glued to an unfinished line makes that line unreadable. */
  function AppendLine(log: Log, entry: Entry): Log {
    Log(log.lines + [if log.tail.Clean? then Readable(entry) else Unreadable], Clean)
  }

  function ReadableIn(lines: seq<Line>): seq<Entry> {
    if |lines| == 0 then []
    else
      ReadableIn(lines[..|lines| - 1]) +
      match lines[|lines| - 1]
      case Readable(entry) => [entry]
      case Unreadable => []
  }

  /** `read_all`: every entry that parses, in file order. */
  lemma ReadableSnoc(lines: seq<Line>, line: Line)
    ensures ReadableIn(lines + [line]) == if line.Readable? then ReadableIn(lines) + [line.entry] else ReadableIn(lines)
  {
    assert (lines + [line])[..|lines|] == lines;
    assert ReadableIn(lines) + [] == ReadableIn(lines);
  }

  function ReadAll(log: Log): seq<Entry> {
    ReadableIn(log.lines) + if log.tail.Unterminated? then [log.tail.entry] else []
  }

  // ----- Walking back

  ghost predicate IsByUuid(index: map<string, Entry>) {
    forall u :: u in index ==> index[u].uuid == u
  }

  /** The entries by uuid; of entries with one uuid the last counts. */
  function Index(entries: seq<Entry>): (index: map<string, Entry>)
    ensures IsByUuid(index)
    ensures |entries| > 0 ==> entries[|entries| - 1].uuid in index
  {
    if |entries| == 0 then map[]
    else
      var last := entries[|entries| - 1];
      Index(entries[..|entries| - 1])[last.uuid := last]
  }

  lemma {:induction false} IndexHolds(entries: seq<Entry>, u: string)
    requires u in Index(entries)
    ensures Index(entries)[u] in entries && Index(entries)[u].uuid == u
  {
    var n := |entries| - 1;
    if n >= 0 && entries[n].uuid != u {
      IndexHolds(entries[..n], u);
    }
  }

  /**
   * An entry without a parent, or whose parent is not there, has none to go on from; so has one with an empty parent.
   */
  function ParentOf(index: map<string, Entry>, entry: Entry): Option<Entry> {
    if entry.parent.Some? && entry.parent.value != "" && entry.parent.value in index
       then Some(index[entry.parent.value])
    else None
  }

  /** The chain that ends at `current`, oldest entry first, cut where it would repeat an entry. */
  function Walk(index: map<string, Entry>, current: Entry, seen: set<string>): seq<Entry>
    requires IsByUuid(index)
    requires current.uuid in index
    decreases index.Keys - seen
  {
    if current.uuid in seen then []
    else
      var parent := ParentOf(index, current);
      (if parent.None? then [] else Walk(index, parent.value, seen + {current.uuid})) + [current]
  }

  /** `read_chain`, for the entries that could be read. */
  function ChainOf(entries: seq<Entry>): seq<Entry> {
    if |entries| == 0 then [] else Walk(Index(entries), entries[|entries| - 1], {})
  }

  function Reversed(s: seq<Entry>): seq<Entry> {
    if |s| == 0 then [] else Reversed(s[1..]) + [s[0]]
  }

  lemma {:induction false} ReversedSnoc(s: seq<Entry>, e: Entry)
    ensures Reversed(s + [e]) == [e] + Reversed(s)
  {
    if |s| > 0 {
      ReversedSnoc(s[1..], e);
      assert (s + [e])[1..] == s[1..] + [e];
    }
  }

  ghost function WalkFrom(index: map<string, Entry>, current: Option<Entry>, seen: set<string>): seq<Entry>
    requires IsByUuid(index)
    requires current.Some? ==> current.value.uuid in index
  {
    if current.None? then [] else Walk(index, current.value, seen)
  }

  /** One round of the loop: the entry moves from what is still to walk to what was collected backwards. */
  lemma OneStepBack(index: map<string, Entry>, current: Entry, seen: set<string>, rest: seq<Entry>,
                    backwards: seq<Entry>)
    returns (rest': seq<Entry>)
    requires IsByUuid(index)
    requires current.uuid in index && current.uuid !in seen && rest == Walk(index, current, seen)
    ensures rest' == WalkFrom(index, ParentOf(index, current), seen + {current.uuid})
    ensures rest' + Reversed(backwards + [current]) == rest + Reversed(backwards)
  {
    rest' := WalkFrom(index, ParentOf(index, current), seen + {current.uuid});
    assert rest == rest' + [current];
    ReversedSnoc(backwards, current);
    var tail := Reversed(backwards);
    assert (rest' + [current]) + tail == rest' + ([current] + tail);
  }

  // ----- Files, entries and writers as objects

  /** The transcript of one session, with the metadata that every append stores beside it. */
  class TranscriptFile {
    var log: Log
    var title: Option<string>
    var messageCount: nat

    constructor ()
      ensures log == Log([], Clean) && title == None && messageCount == 0
    {
      log, title, messageCount := Log([], Clean), None, 0;
    }

    method ReadAllEntries() returns (entries: seq<Entry>)
      ensures entries == ReadAll(log)
    {
      entries := [];
      for i := 0 to |log.lines|
        invariant entries == ReadableIn(log.lines[..i])
      {
        assert log.lines[..i + 1][..i] == log.lines[..i];
        if log.lines[i].Readable? {
          entries := entries + [log.lines[i].entry];
        }
      }
      assert log.lines[..|log.lines|] == log.lines;
      if log.tail.Unterminated? {
        entries := entries + [log.tail.entry];
      }
    }

    method ReadChain() returns (chain: seq<Entry>)
      ensures chain == ChainOf(ReadAll(log))
    {
      var allEntries := ReadAllEntries();
      if |allEntries| == 0 {
        return [];
      }
      var byUuid := BuildIndex(allEntries);
      var backwards: seq<Entry> := [];
      var seen: set<string> := {};
      var current := Some(allEntries[|allEntries| - 1]);
      ghost var rest := WalkFrom(byUuid, current, seen);
      while current.Some?
        invariant current.Some? ==> current.value.uuid in byUuid
        invariant rest == WalkFrom(byUuid, current, seen)
        invariant ChainOf(allEntries) == rest + Reversed(backwards)
        decreases if current.Some? then 1 else 0, byUuid.Keys - seen
      {
        if current.value.uuid in seen {
          assert rest == [];
          break;
        }
        rest := OneStepBack(byUuid, current.value, seen, rest, backwards);
        seen := seen + {current.value.uuid};
        backwards := backwards + [current.value];
        current := ParentOf(byUuid, current.value);
      }
      assert rest == [];
      assert [] + Reversed(backwards) == Reversed(backwards);
      chain := Reversed(backwards);
    }
  }

  method BuildIndex(entries: seq<Entry>) returns (index: map<string, Entry>)
    ensures index == Index(entries)
  {
    index := map[];
    for i := 0 to |entries|
      invariant index == Index(entries[..i])
    {
      assert entries[..i + 1][..i] == entries[..i];
      index := index[entries[i].uuid := entries[i]];
    }
    assert entries[..|entries|] == entries;
  }

  /** An entry before it is stored; the writer sets its parent. */
  class LiveEntry {
    const uuid: string
    const timestamp: string
    const payload: Payload
    var parent: Option<string>

    constructor (uuid: string, timestamp: string, payload: Payload)
      ensures this.uuid == uuid && this.timestamp == timestamp && this.payload == payload && parent == None
    {
      this.uuid, this.timestamp, this.payload := uuid, timestamp, payload;
      parent := None;
    }
  }

  function FirstLine(text: string): string {
    if |text| == 0 || text[0] == '\n' then "" else [text[0]] + FirstLine(text[1..])
  }

  /** The title that the first text gives a session. */
  function TitleFrom(content: string): string {
    FirstLine(if |content| <= 80 then content else content[..80])
  }

  lemma {:induction false} FirstLineIs(text: string)
    ensures FirstLine(text) <= text && '\n' !in FirstLine(text)
    ensures |FirstLine(text)| < |text| ==> text[|FirstLine(text)|] == '\n'
  {
    if |text| > 0 && text[0] != '\n' {
      FirstLineIs(text[1..]);
    }
  }

  /** The title is the first line of the text, or as much of it as 80 characters hold. */
  lemma TitleIs(content: string)
    ensures var title := TitleFrom(content);
            && title <= content && |title| <= 80 && '\n' !in title
            && (|title| == 80 || |title| == |content| || content[|title|] == '\n')
  {
    FirstLineIs(if |content| <= 80 then content else content[..80]);
  }

  class TranscriptWriter {
    const file: TranscriptFile
    var lastUuid: Option<string>

    constructor (file: TranscriptFile)
      ensures this.file == file && lastUuid == None
    {
      this.file := file;
      lastUuid := None;
    }

    /** `append`, when the write succeeds. */
    method Append(entry: LiveEntry)
      modifies this, file, entry
      ensures entry.parent == old(lastUuid) && lastUuid == Some(entry.uuid)
      ensures file.log == AppendLine(old(file.log), Entry(entry.uuid, old(lastUuid), entry.timestamp, entry.payload))
      ensures file.messageCount == old(file.messageCount) + 1
      ensures file.title == if old(file.title).None? && entry.payload.UserMessage?
              then Some(TitleFrom(entry.payload.content))
                            else old(file.title)
    {
      entry.parent := lastUuid;
      lastUuid := Some(entry.uuid);
      file.log := AppendLine(file.log, Entry(entry.uuid, entry.parent, entry.timestamp, entry.payload));
      if file.title.None? && entry.payload.UserMessage? {
        file.title := Some(TitleFrom(entry.payload.content));
      }
      file.messageCount := file.messageCount + 1;
    }
  }

  /** The part of `resume` that concerns the writer: it goes on from the end of the chain. */
  method ResumeWriter(file: TranscriptFile) returns (writer: TranscriptWriter, chain: seq<Entry>)
    ensures fresh(writer) && writer.file == file
    ensures chain == ChainOf(ReadAll(file.log)) && writer.lastUuid == EndOf(chain)
  {
    writer := new TranscriptWriter(file);
    chain := file.ReadChain();
    if |chain| > 0 {
      writer.lastUuid := Some(chain[|chain| - 1].uuid);
    }
  }

  function EndOf(chain: seq<Entry>): Option<string> {
    if |chain| == 0 then None else Some(chain[|chain| - 1].uuid)
  }

  // ----- What a chain is, whatever the entries

  ghost predicate IsLinkedAt(index: map<string, Entry>, chain: seq<Entry>, i: int) {
    0 < i < |chain| ==> ParentOf(index, chain[i]) == Some(chain[i - 1])
  }

  /** Each entry is the stored parent of the next. */
  ghost predicate IsLinked(index: map<string, Entry>, chain: seq<Entry>) {
    forall i :: IsLinkedAt(index, chain, i)
  }

  ghost predicate NoRepeats(chain: seq<Entry>) {
    forall i, j :: 0 <= i < j < |chain| ==> chain[i].uuid != chain[j].uuid
  }

  lemma {:induction false} WalkShape(index: map<string, Entry>, current: Entry, seen: set<string>)
    requires IsByUuid(index)
    requires current.uuid in index && current.uuid !in seen
    ensures var chain := Walk(index, current, seen);
            && |chain| > 0 && chain[|chain| - 1] == current
            && IsLinked(index, chain) && NoRepeats(chain)
            && (forall i :: 0 <= i < |chain| ==>
               chain[i].uuid !in seen && (i < |chain| - 1 ==> chain[i] in index.Values))
            && var root := ParentOf(index, chain[0]);
               root.None? || root.value.uuid in seen || exists i :: 0 <= i < |chain| && chain[i].uuid == root.value.uuid
    decreases index.Keys - seen
  {
    var chain := Walk(index, current, seen);
    var parent := ParentOf(index, current);
    if parent.Some? && parent.value.uuid !in seen + {current.uuid} {
      WalkShape(index, parent.value, seen + {current.uuid});
      WalkExtends(index, current, seen, parent.value, Walk(index, parent.value, seen + {current.uuid}), chain);
    } else {
      assert parent.Some? ==> Walk(index, parent.value, seen + {current.uuid}) == [];
      assert [] + [current] == [current];
      assert chain == [current] && chain[0].uuid == current.uuid;
    }
  }

  lemma WalkExtends(index: map<string, Entry>, current: Entry, seen: set<string>, parent: Entry, front: seq<Entry>,
                    chain: seq<Entry>)
    requires IsByUuid(index)
    requires |front| > 0 && front[|front| - 1] == parent && ParentOf(index, current) == Some(parent)
    requires IsLinked(index, front) && NoRepeats(front) && chain == front + [current] && current.uuid !in seen
    requires forall i :: 0 <= i < |front| ==>
             front[i].uuid !in seen + {current.uuid} && (i < |front| - 1 ==> front[i] in index.Values)
    requires var root := ParentOf(index, front[0]);
             root.None? || root.value.uuid in seen + {current.uuid} ||
             exists i :: 0 <= i < |front| && front[i].uuid == root.value.uuid
    ensures IsLinked(index, chain) && NoRepeats(chain)
    ensures forall i :: 0 <= i < |chain| ==> chain[i].uuid !in seen && (i < |chain| - 1 ==> chain[i] in index.Values)
    ensures var root := ParentOf(index, chain[0]);
            root.None? || root.value.uuid in seen || exists i :: 0 <= i < |chain| && chain[i].uuid == root.value.uuid
  {
    forall i ensures IsLinkedAt(index, chain, i) {
      assert IsLinkedAt(index, front, i);
      assert 0 < i < |front| ==> chain[i] == front[i] && chain[i - 1] == front[i - 1];
    }
    var root := ParentOf(index, front[0]);
    assert chain[0] == front[0] && chain[|front|] == current;
    if root.Some? && root.value.uuid !in seen && root.value.uuid != current.uuid {
      var i :| 0 <= i < |front| && front[i].uuid == root.value.uuid;
      assert chain[i].uuid == root.value.uuid;
    }
  }

  /**
   * On any entries, with duplicate uuids, missing parents or cycles: the chain ends at the last entry, repeats
   * none, links each to its stored parent, and stops only where there is no parent or the parent is in it.
   */
  lemma ChainShape(entries: seq<Entry>)
    requires |entries| > 0
    ensures var index, chain := Index(entries), ChainOf(entries);
            && |chain| > 0 && chain[|chain| - 1] == entries[|entries| - 1]
            && IsLinked(index, chain) && NoRepeats(chain)
            && (forall i :: 0 <= i < |chain| ==> chain[i] in entries)
            && var root := ParentOf(index, chain[0]);
               root.None? || exists i :: 0 <= i < |chain| && chain[i].uuid == root.value.uuid
  {
    var index, chain := Index(entries), ChainOf(entries);
    WalkShape(index, entries[|entries| - 1], {});
    forall i | 0 <= i < |chain| ensures chain[i] in entries {
      if i < |chain| - 1 {
        assert chain[i] in index.Values;
        var u :| u in index && index[u] == chain[i];
        IndexHolds(entries, u);
      }
    }
  }
}
