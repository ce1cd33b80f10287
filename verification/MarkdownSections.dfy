/** Bullets under the headings of a markdown body. */
module MarkdownSections {
  import opened Text

  // ----- Lines

  /** Where Python's `str.splitlines` breaks; a carriage return and a line feed together are one break. */
  predicate IsBreak(c: char) {
    var u := c as int;
    10 <= u <= 13 || 28 <= u <= 30 || u == 0x85 || u == 0x2028 || u == 0x2029
  }

  function LineLength(s: string): (n: nat)
    ensures n <= |s| && (n < |s| ==> IsBreak(s[n]))
    ensures forall k :: 0 <= k < n ==> !IsBreak(s[k])
  {
    if |s| == 0 || IsBreak(s[0]) then 0 else 1 + LineLength(s[1..])
  }

  function BreakLength(s: string, n: nat): nat {
    if n >= |s| then 0 else if s[n] == '\r' && n + 1 < |s| && s[n + 1] == '\n' then 2 else 1
  }

  function SplitLines(s: string): seq<string>
    decreases |s|
  {
    if |s| == 0 then []
    else
      var n := LineLength(s);
      [s[..n]] + SplitLines(s[n + BreakLength(s, n)..])
  }

  /** The lines as a text, each with its end. */
  function Lines(lines: seq<string>): string {
    Join(lines, "\n") + "\n"
  }

  predicate IsOneLine(s: string) {
    forall k :: 0 <= k < |s| ==> !IsBreak(s[k])
  }

  ghost predicate AreLines(lines: seq<string>) {
    forall i :: 0 <= i < |lines| ==> IsOneLine(lines[i])
  }

  lemma {:induction false} SplitLinesAreLines(s: string)
    ensures AreLines(SplitLines(s))
    decreases |s|
  {
    if |s| > 0 {
      var n := LineLength(s);
      SplitLinesAreLines(s[n + BreakLength(s, n)..]);
    }
  }

  lemma {:induction false} LineLengthAt(line: string, rest: string)
    requires IsOneLine(line) && (|rest| > 0 ==> IsBreak(rest[0]))
    ensures LineLength(line + rest) == |line|
  {
    if |line| == 0 {
      assert line + rest == rest;
    } else {
      LineLengthAt(line[1..], rest);
      assert (line + rest)[1..] == line[1..] + rest && !IsBreak(line[0]);
    }
  }

  lemma SplitOneLine(line: string, more: string, text: string)
    requires IsOneLine(line) && text == line + "\n" + more
    ensures SplitLines(text) == [line] + SplitLines(more)
  {
    var n, rest := |line|, "\n" + more;
    assert text == line + rest;
    LineLengthAt(line, rest);
    assert text[..n] == line && text[n] == '\n' && text[n + 1..] == more;
  }

  lemma JoinedFirst(lines: seq<string>)
    requires |lines| > 0
    ensures Lines(lines) == lines[0] + "\n" + if |lines| > 1 then Lines(lines[1..]) else []
  {
  }

  /** What was written line by line is read line by line. */
  lemma {:induction false} SplitLinesUndoesJoin(lines: seq<string>)
    requires |lines| > 0 && AreLines(lines)
    ensures SplitLines(Lines(lines)) == lines
  {
    var text, line := Lines(lines), lines[0];
    assert IsOneLine(line);
    JoinedFirst(lines);
    if |lines| == 1 {
      SplitOneLine(line, [], text);
      assert [line] + [] == lines;
    } else {
      var rest := lines[1..];
      SplitLinesUndoesJoin(rest);
      SplitOneLine(line, Lines(rest), text);
      assert [line] + rest == lines;
    }
  }

  // ----- Headings and blank lines

  const HEADING := "## "
  const BULLET := "- "

  predicate IsBlank(line: string) {
    Strip(line) == ""
  }

  predicate IsTop(line: string) {
    HEADING <= line
  }

  /** The first line from `i` on that is the heading, up to outer white space; the number of lines if none is. */
  function HeadingFrom(lines: seq<string>, heading: string, i: nat): (r: nat)
    requires i <= |lines|
    ensures i <= r <= |lines|
    decreases |lines| - i
  {
    if i == |lines| || Strip(lines[i]) == heading then i else HeadingFrom(lines, heading, i + 1)
  }

  function FirstHeading(lines: seq<string>, heading: string): (r: nat)
    ensures r <= |lines|
  {
    HeadingFrom(lines, heading, 0)
  }

  function TopFrom(lines: seq<string>, i: nat): (r: nat)
    requires i <= |lines|
    ensures i <= r <= |lines|
    decreases |lines| - i
  {
    if i == |lines| || IsTop(lines[i]) then i else TopFrom(lines, i + 1)
  }

  function TrimBlank(lines: seq<string>): seq<string> {
    if |lines| > 0 && IsBlank(lines[|lines| - 1]) then TrimBlank(lines[..|lines| - 1]) else lines
  }

  /** The lines with the bullet put at the end of the section. */
  function Edited(lines: seq<string>, heading: string, bullet: string): seq<string> {
    var at := FirstHeading(lines, heading);
    if at == |lines| then
      lines + (if |lines| > 0 && !IsBlank(lines[|lines| - 1]) then [""] else []) + [heading, bullet]
    else
      var end := TopFrom(lines, at + 1);
      lines[..at + 1] + TrimBlank(lines[at + 1..end]) + [bullet] + Behind(lines[end..])
  }

  /** One blank line before the next section. */
  function Behind(post: seq<string>): seq<string> {
    if |post| == 0 then [] else [""] + post
  }

  lemma {:induction false} HeadingFromIs(lines: seq<string>, heading: string, from: nat, i: nat)
    requires from <= i <= |lines| && (i < |lines| ==> Strip(lines[i]) == heading)
    requires forall j :: from <= j < i ==> Strip(lines[j]) != heading
    ensures HeadingFrom(lines, heading, from) == i
    decreases i - from
  {
    if from < i {
      HeadingFromIs(lines, heading, from + 1, i);
    }
  }

  lemma {:induction false} TopFromIs(lines: seq<string>, from: nat, i: nat)
    requires from <= i <= |lines| && (i < |lines| ==> IsTop(lines[i]))
    requires forall j :: from <= j < i ==> !IsTop(lines[j])
    ensures TopFrom(lines, from) == i
    decreases i - from
  {
    if from < i {
      TopFromIs(lines, from + 1, i);
    }
  }

  /** `append_to_section`. */
  method AppendToSection(body: string, section: string, bullet: string) returns (text: string)
    ensures text == Lines(Edited(SplitLines(body), HEADING + section, BULLET + bullet))
  {
    var lines := EditLines(SplitLines(body), HEADING + section, BULLET + bullet);
    text := Lines(lines);
  }

  method EditLines(lines: seq<string>, sectionHeading: string, newBullet: string) returns (out: seq<string>)
    ensures out == Edited(lines, sectionHeading, newBullet)
  {
    var sectionIdx := 0;
    while sectionIdx < |lines| && Strip(lines[sectionIdx]) != sectionHeading
      invariant sectionIdx <= |lines|
      invariant forall j :: 0 <= j < sectionIdx ==> Strip(lines[j]) != sectionHeading
    {
      sectionIdx := sectionIdx + 1;
    }
    HeadingFromIs(lines, sectionHeading, 0, sectionIdx);
    if sectionIdx == |lines| {
      var newLines := lines;
      if |newLines| > 0 && !IsBlank(newLines[|newLines| - 1]) {
        newLines := newLines + [""];
      } else {
        assert newLines == newLines + [];
      }
      return newLines + [sectionHeading, newBullet];
    }
    out := EditSection(lines, sectionHeading, sectionIdx, newBullet);
  }

  method EditSection(lines: seq<string>, sectionHeading: string, sectionIdx: nat, newBullet: string)
    returns (out: seq<string>)
    requires sectionIdx == FirstHeading(lines, sectionHeading) < |lines|
    ensures out == Edited(lines, sectionHeading, newBullet)
  {
    var endIdx := EndOfSection(lines, sectionIdx);
    var sectionBody := DropTrailingBlanks(lines[sectionIdx + 1..endIdx]);
    out := Assemble(lines[..sectionIdx + 1], sectionBody, newBullet, lines[endIdx..]);
  }

  method Assemble(pre: seq<string>, sectionBody: seq<string>, newBullet: string, post: seq<string>)
    returns (out: seq<string>)
    ensures out == pre + sectionBody + [newBullet] + Behind(post)
  {
    out := pre + sectionBody + [newBullet];
    if |post| > 0 {
      out := out + ([""] + post);
    } else {
      assert out + [] == out;
    }
  }

  method DropTrailingBlanks(lines: seq<string>) returns (rest: seq<string>)
    ensures rest == TrimBlank(lines)
  {
    rest := lines;
    while |rest| > 0 && IsBlank(rest[|rest| - 1])
      invariant TrimBlank(rest) == TrimBlank(lines)
      decreases |rest|
    {
      rest := rest[..|rest| - 1];
    }
  }

  method EndOfSection(lines: seq<string>, at: nat) returns (end: nat)
    requires at < |lines|
    ensures at < end == TopFrom(lines, at + 1)
  {
    end := at + 1;
    while end < |lines| && !IsTop(lines[end])
      invariant at < end <= |lines|
      invariant forall j :: at < j < end ==> !IsTop(lines[j])
    {
      end := end + 1;
    }
    TopFromIs(lines, at + 1, end);
  }

  // ----- The same without blank lines

  function Visible(lines: seq<string>): seq<string> {
    if |lines| == 0 then []
    else (if IsBlank(lines[0]) then [] else [lines[0]]) + Visible(lines[1..])
  }

  /** One line put at the end of the first section with the heading, or the heading and the line at the end. */
  function Inserted(lines: seq<string>, heading: string, line: string): seq<string> {
    var at := FirstHeading(lines, heading);
    if at == |lines| then lines + [heading, line]
    else
      InsertAt(lines, TopFrom(lines, at + 1), [line])
  }

  function InsertAt(lines: seq<string>, i: nat, more: seq<string>): seq<string>
    requires i <= |lines|
  {
    lines[..i] + more + lines[i..]
  }

  ghost predicate HasNoHeading(lines: seq<string>, heading: string) {
    forall i :: 0 <= i < |lines| ==> Strip(lines[i]) != heading
  }

  ghost predicate HasNoTop(lines: seq<string>) {
    forall i :: 0 <= i < |lines| ==> !IsTop(lines[i])
  }

  lemma {:induction false} HeadingParts(lines: seq<string>, heading: string, from: nat)
    requires from <= |lines|
    ensures var at := HeadingFrom(lines, heading, from);
            && (forall i :: from <= i < at ==> Strip(lines[i]) != heading)
            && (at < |lines| ==> Strip(lines[at]) == heading)
    decreases |lines| - from
  {
    if from < |lines| && Strip(lines[from]) != heading {
      HeadingParts(lines, heading, from + 1);
    }
  }

  lemma {:induction false} TopParts(lines: seq<string>, from: nat)
    requires from <= |lines|
    ensures var end := TopFrom(lines, from);
            && (forall i :: from <= i < end ==> !IsTop(lines[i]))
            && (end < |lines| ==> IsTop(lines[end]))
    decreases |lines| - from
  {
    if from < |lines| && !IsTop(lines[from]) {
      TopParts(lines, from + 1);
    }
  }

  /** What stands before the heading, between it and the next one, and from there on. */
  ghost predicate IsSection(lines: seq<string>, heading: string, front: seq<string>, head: string, mid: seq<string>,
                            back: seq<string>) {
    && lines == front + [head] + mid + back && Strip(head) == heading
    && HasNoHeading(front, heading) && HasNoTop(mid) && (|back| > 0 ==> IsTop(back[0]))
  }

  lemma SectionPlaces(lines: seq<string>, heading: string, front: seq<string>, head: string, mid: seq<string>,
                      back: seq<string>)
    requires IsSection(lines, heading, front, head, mid, back)
    ensures FirstHeading(lines, heading) == |front| < |lines|
    ensures TopFrom(lines, |front| + 1) == |front| + 1 + |mid|
    ensures lines[..|front| + 1] == front + [head]
    ensures lines[|front| + 1..|front| + 1 + |mid|] == mid && lines[|front| + 1 + |mid|..] == back
  {
    var n, end := |front|, |front| + 1 + |mid|;
    assert forall j :: 0 <= j < n ==> lines[j] == front[j];
    assert forall j :: n < j < end ==> lines[j] == mid[j - n - 1];
    assert lines[n] == head && (end < |lines| ==> lines[end] == back[0]);
    HeadingFromIs(lines, heading, 0, n);
    TopFromIs(lines, n + 1, end);
  }

  lemma FourParts(lines: seq<string>, at: nat, end: nat)
    requires at < end <= |lines|
    ensures lines == lines[..at] + [lines[at]] + lines[at + 1..end] + lines[end..]
  {
  }

  lemma SectionExists(lines: seq<string>, heading: string)
    returns (front: seq<string>, head: string, mid: seq<string>, back: seq<string>)
    requires FirstHeading(lines, heading) < |lines|
    ensures IsSection(lines, heading, front, head, mid, back)
    ensures |front| == FirstHeading(lines, heading)
  {
    var at := FirstHeading(lines, heading);
    var end := TopFrom(lines, at + 1);
    HeadingParts(lines, heading, 0);
    TopParts(lines, at + 1);
    FourParts(lines, at, end);
    front, head, mid, back := lines[..at], lines[at], lines[at + 1..end], lines[end..];
  }

  lemma InsertedInSection(lines: seq<string>, heading: string, front: seq<string>, head: string, mid: seq<string>,
                          back: seq<string>, line: string)
    requires IsSection(lines, heading, front, head, mid, back)
    ensures Inserted(lines, heading, line) == front + [head] + mid + [line] + back
  {
    SectionPlaces(lines, heading, front, head, mid, back);
    var end := |front| + 1 + |mid|;
    assert lines[..end] == front + [head] + mid;
  }

  // ----- The edit, blank lines left aside

  lemma {:induction false} VisibleOfBoth(a: seq<string>, b: seq<string>)
    ensures Visible(a + b) == Visible(a) + Visible(b)
  {
    if |a| == 0 {
      assert a + b == b;
    } else {
      var first := if IsBlank(a[0]) then [] else [a[0]];
      var x, y := Visible(a[1..]), Visible(b);
      VisibleOfBoth(a[1..], b);
      assert (a + b)[1..] == a[1..] + b;
      assert first + (x + y) == (first + x) + y;
    }
  }

  lemma VisibleOfOne(line: string)
    ensures Visible([line]) == if IsBlank(line) then [] else [line]
  {
    assert [line][1..] == [];
  }

  lemma {:induction false} TrimBlankKeepsVisible(lines: seq<string>)
    ensures Visible(TrimBlank(lines)) == Visible(lines)
  {
    if |lines| > 0 && IsBlank(lines[|lines| - 1]) {
      var rest, last := lines[..|lines| - 1], lines[|lines| - 1];
      TrimBlankKeepsVisible(rest);
      VisibleOfBoth(rest, [last]);
      VisibleOfOne(last);
      assert rest + [last] == lines;
    }
  }

  lemma VisibleStartsWithTop(lines: seq<string>)
    requires |lines| > 0 && !IsBlank(lines[0])
    ensures |Visible(lines)| > 0 && Visible(lines)[0] == lines[0]
  {
  }

  lemma {:induction false} EndStays(line: string)
    requires |line| > 0 && !IsSpace(line[0])
    ensures LStrip(line) == line && !IsBlank(line)
  {
    RStripKeepsFirst(line);
  }

  lemma {:induction false} RStripKeepsFirst(line: string)
    requires |line| > 0 && !IsSpace(line[0])
    ensures RStrip(line) != ""
  {
    if IsSpace(line[|line| - 1]) {
      assert |line| > 1;
      RStripKeepsFirst(line[..|line| - 1]);
    }
  }

  lemma TopIsVisible(line: string)
    requires IsTop(line)
    ensures !IsBlank(line)
  {
    assert line[0] == '#';
    EndStays(line);
  }

  lemma BulletIsVisible(bullet: string)
    ensures !IsBlank(BULLET + bullet) && !IsTop(BULLET + bullet) && Strip(BULLET + bullet) != ""
  {
    var line := BULLET + bullet;
    assert line[0] == '-';
    EndStays(line);
  }

  lemma VisibleOfParts(front: seq<string>, head: string, mid: seq<string>, back: seq<string>)
    requires !IsBlank(head)
    ensures Visible(front + [head] + mid + back) == Visible(front) + [head] + Visible(mid) + Visible(back)
  {
    VisibleOfBoth(front + [head] + mid, back);
    VisibleOfBoth(front + [head], mid);
    VisibleOfBoth(front, [head]);
    VisibleOfOne(head);
  }

  lemma {:induction false} VisibleHasNoHeading(lines: seq<string>, heading: string)
    requires HasNoHeading(lines, heading)
    ensures HasNoHeading(Visible(lines), heading)
  {
    if |lines| > 0 {
      VisibleHasNoHeading(lines[1..], heading);
    }
  }

  lemma {:induction false} VisibleHasNoTop(lines: seq<string>)
    requires HasNoTop(lines)
    ensures HasNoTop(Visible(lines))
  {
    if |lines| > 0 {
      VisibleHasNoTop(lines[1..]);
    }
  }

  lemma VisibleSection(lines: seq<string>, heading: string, front: seq<string>, head: string, mid: seq<string>,
                       back: seq<string>)
    requires IsSection(lines, heading, front, head, mid, back) && heading != ""
    ensures IsSection(Visible(lines), heading, Visible(front), head, Visible(mid), Visible(back))
  {
    VisibleOfParts(front, head, mid, back);
    VisibleHasNoHeading(front, heading);
    VisibleHasNoTop(mid);
    if |back| > 0 {
      TopIsVisible(back[0]);
      VisibleStartsWithTop(back);
    }
  }

  lemma EditedSection(lines: seq<string>, heading: string, front: seq<string>, head: string, mid: seq<string>,
                      back: seq<string>, line: string)
    requires IsSection(lines, heading, front, head, mid, back)
    ensures Edited(lines, heading, line) == front + [head] + TrimBlank(mid) + [line] + Behind(back)
  {
    SectionPlaces(lines, heading, front, head, mid, back);
  }

  lemma NoHeadingStays(lines: seq<string>, heading: string)
    requires FirstHeading(lines, heading) == |lines|
    ensures FirstHeading(Visible(lines), heading) == |Visible(lines)|
  {
    HeadingParts(lines, heading, 0);
    VisibleHasNoHeading(lines, heading);
    HeadingFromIs(Visible(lines), heading, 0, |Visible(lines)|);
  }

  /** Blank lines left aside, exactly one line goes in, or a heading and a line. */
  lemma EditInsertsOneLine(lines: seq<string>, heading: string, line: string)
    requires !IsBlank(heading) && !IsBlank(line)
    ensures Visible(Edited(lines, heading, line)) == Inserted(Visible(lines), heading, line)
  {
    VisibleOfOne("");
    VisibleOfOne(line);
    if FirstHeading(lines, heading) == |lines| {
      NoHeadingStays(lines, heading);
      EditAddsSection(lines, heading, line);
    } else {
      var front, head, mid, back := SectionExists(lines, heading);
      EditedSection(lines, heading, front, head, mid, back, line);
      VisibleOfBoth(front + [head] + TrimBlank(mid) + [line], Behind(back));
      VisibleOfBoth(front + [head] + TrimBlank(mid), [line]);
      VisibleOfBoth(front + [head], TrimBlank(mid));
      VisibleOfBoth(front, [head]);
      VisibleOfBoth([""], back);
      TrimBlankKeepsVisible(mid);
      VisibleSection(lines, heading, front, head, mid, back);
      InsertedInSection(Visible(lines), heading, Visible(front), head, Visible(mid), Visible(back), line);
      VisibleOfOne(head);
      assert Visible(Behind(back)) == Visible(back);
    }
  }

  lemma EditAddsSection(lines: seq<string>, heading: string, line: string)
    requires !IsBlank(heading) && !IsBlank(line) && FirstHeading(lines, heading) == |lines|
    ensures Visible(Edited(lines, heading, line)) == Visible(lines) + [heading, line]
  {
    var gap := if |lines| > 0 && !IsBlank(lines[|lines| - 1]) then [""] else [];
    var more := [heading] + [line];
    VisibleOfOne("");
    VisibleOfOne(heading);
    VisibleOfOne(line);
    VisibleOfBoth([heading], [line]);
    assert more == [heading, line];
    VisibleOfBoth(lines + gap, more);
    VisibleOfBoth(lines, gap);
    assert Visible(gap) == [] && Visible(lines) + [] == Visible(lines);
  }

  // ----- The edit on texts

  function Appended(body: string, section: string, bullet: string): string {
    Lines(Edited(SplitLines(body), HEADING + section, BULLET + bullet))
  }

  lemma {:induction false} TrimBlankIsPrefix(lines: seq<string>)
    ensures TrimBlank(lines) <= lines
  {
    if |lines| > 0 && IsBlank(lines[|lines| - 1]) {
      TrimBlankIsPrefix(lines[..|lines| - 1]);
    }
  }

  lemma LinesOfBoth(a: seq<string>, b: seq<string>)
    requires AreLines(a) && AreLines(b)
    ensures AreLines(a + b)
  {
  }

  lemma SomeLines(lines: seq<string>, i: nat, j: nat)
    requires AreLines(lines) && i <= j <= |lines|
    ensures AreLines(lines[i..j])
  {
  }

  lemma PartsAreLines(pre: seq<string>, mid: seq<string>, line: string, post: seq<string>)
    requires AreLines(pre) && AreLines(mid) && IsOneLine(line) && AreLines(post)
    ensures AreLines(pre + mid + [line] + Behind(post))
  {
    assert AreLines([""]) && AreLines([line]);
    LinesOfBoth([""], post);
    LinesOfBoth(pre, mid);
    LinesOfBoth(pre + mid, [line]);
    LinesOfBoth(pre + mid + [line], Behind(post));
  }

  lemma EditedAreLines(lines: seq<string>, heading: string, line: string)
    requires AreLines(lines) && IsOneLine(heading) && IsOneLine(line)
    ensures AreLines(Edited(lines, heading, line)) && |Edited(lines, heading, line)| > 0
  {
    var at := FirstHeading(lines, heading);
    if at == |lines| {
      var gap := if |lines| > 0 && !IsBlank(lines[|lines| - 1]) then [""] else [];
      assert AreLines(gap) && AreLines([heading, line]);
      LinesOfBoth(lines, gap);
      LinesOfBoth(lines + gap, [heading, line]);
    } else {
      var end := TopFrom(lines, at + 1);
      var mid := TrimBlank(lines[at + 1..end]);
      TrimBlankIsPrefix(lines[at + 1..end]);
      SomeLines(lines, 0, at + 1);
      SomeLines(lines, at + 1, end);
      SomeLines(lines, end, |lines|);
      PartsAreLines(lines[..at + 1], mid, line, lines[end..]);
    }
  }

  lemma HeadingIsVisible(section: string)
    ensures !IsBlank(HEADING + section) && IsTop(HEADING + section)
  {
    TopIsVisible(HEADING + section);
  }

  /** One bullet appended: blank lines left aside, the text has one line more, or two with a new heading. */
  lemma AppendInsertsOneLine(body: string, section: string, bullet: string)
    requires IsOneLine(section) && IsOneLine(bullet)
    ensures Visible(SplitLines(Appended(body, section, bullet))) ==
            Inserted(Visible(SplitLines(body)), HEADING + section, BULLET + bullet)
  {
    var lines, heading, line := SplitLines(body), HEADING + section, BULLET + bullet;
    SplitLinesAreLines(body);
    EditedAreLines(lines, heading, line);
    SplitLinesUndoesJoin(Edited(lines, heading, line));
    HeadingIsVisible(section);
    BulletIsVisible(bullet);
    EditInsertsOneLine(lines, heading, line);
  }

  // ----- One section, several bullets

  lemma {:induction false} RStripEnds(s: string)
    ensures RStrip(s) == "" || !IsSpace(RStrip(s)[|RStrip(s)| - 1])
  {
    if |s| > 0 && IsSpace(s[|s| - 1]) {
      RStripEnds(s[..|s| - 1]);
    }
  }

  /** A heading of a stripped section name is found again. */
  lemma HeadingIsStripped(section: string)
    requires section != "" && Strip(section) == section
    ensures Strip(HEADING + section) == HEADING + section
  {
    var heading := HEADING + section;
    RStripEnds(LStrip(section));
    assert heading[0] == '#' && heading[|heading| - 1] == section[|section| - 1];
    EndStays(heading);
  }

  /** Where the lines after the heading at `at` run, up to the next heading. */
  ghost predicate RunsTo(lines: seq<string>, heading: string, at: nat, end: nat) {
    && at < end <= |lines| && Strip(lines[at]) == heading && (end < |lines| ==> IsTop(lines[end]))
    && (forall i :: 0 <= i < at ==> Strip(lines[i]) != heading)
    && (forall i :: at < i < end ==> !IsTop(lines[i]))
  }

  lemma SectionRuns(lines: seq<string>, heading: string) returns (at: nat, end: nat)
    requires FirstHeading(lines, heading) < |lines|
    ensures RunsTo(lines, heading, at, end) && at == FirstHeading(lines, heading)
    ensures end == TopFrom(lines, at + 1)
  {
    at := FirstHeading(lines, heading);
    end := TopFrom(lines, at + 1);
    HeadingParts(lines, heading, 0);
    TopParts(lines, at + 1);
  }

  lemma InsertedWhere(lines: seq<string>, heading: string, at: nat, end: nat, line: string)
    requires RunsTo(lines, heading, at, end)
    ensures Inserted(lines, heading, line) == InsertAt(lines, end, [line])
    ensures FirstHeading(lines, heading) == at < |lines| && TopFrom(lines, at + 1) == end
  {
    HeadingFromIs(lines, heading, 0, at);
    TopFromIs(lines, at + 1, end);
  }

  /** All the lines at the end of the section, in order. */
  function InsertedAll(lines: seq<string>, heading: string, more: seq<string>): seq<string> {
    var at := FirstHeading(lines, heading);
    if at == |lines| then lines + [heading] + more
    else InsertAt(lines, TopFrom(lines, at + 1), more)
  }

  lemma InsertedAllNew(lines: seq<string>, heading: string, more: seq<string>)
    requires FirstHeading(lines, heading) == |lines|
    ensures InsertedAll(lines, heading, more) == lines + [heading] + more
  {
  }

  lemma InsertedAllWhere(lines: seq<string>, heading: string, at: nat, end: nat, more: seq<string>)
    requires RunsTo(lines, heading, at, end)
    ensures InsertedAll(lines, heading, more) == InsertAt(lines, end, more)
  {
    InsertedWhere(lines, heading, at, end, "");
  }

  lemma LongerSection(lines: seq<string>, heading: string, at: nat, end: nat, more: seq<string>)
    requires RunsTo(lines, heading, at, end) && HasNoTop(more)
    ensures RunsTo(InsertAt(lines, end, more), heading, at, end + |more|)
  {
    var longer := InsertAt(lines, end, more);
    assert forall i :: 0 <= i < end ==> longer[i] == lines[i];
    assert forall i :: end <= i < end + |more| ==> longer[i] == more[i - end];
    assert end < |lines| ==> longer[end + |more|] == lines[end];
  }

  lemma NewSection(lines: seq<string>, heading: string, more: seq<string>)
    requires FirstHeading(lines, heading) == |lines| && Strip(heading) == heading && HasNoTop(more)
    ensures RunsTo(lines + [heading] + more, heading, |lines|, |lines| + 1 + |more|)
  {
    var all, n := lines + [heading] + more, |lines|;
    HeadingParts(lines, heading, 0);
    assert all[n] == heading;
    assert forall i :: 0 <= i < n ==> all[i] == lines[i];
    assert forall i :: n < i < |all| ==> all[i] == more[i - n - 1];
  }

  lemma InsertBehind(lines: seq<string>, i: nat, more: seq<string>, line: string)
    requires i <= |lines|
    ensures InsertAt(InsertAt(lines, i, more), i + |more|, [line]) == InsertAt(lines, i, more + [line])
  {
    var longer := InsertAt(lines, i, more);
    assert longer[..i + |more|] == lines[..i] + more && longer[i + |more|..] == lines[i..];
    assert lines[..i] + more + [line] == lines[..i] + (more + [line]);
  }

  lemma AfterNewSection(lines: seq<string>, heading: string, more: seq<string>, line: string)
    requires FirstHeading(lines, heading) == |lines| && Strip(heading) == heading && HasNoTop(more)
    ensures Inserted(lines + [heading] + more, heading, line) == lines + [heading] + (more + [line])
  {
    var all := lines + [heading] + more;
    NewSection(lines, heading, more);
    InsertedWhere(all, heading, |lines|, |all|, line);
    assert all[..|all|] == all && all[|all|..] == [] && all + [line] + [] == all + [line];
    assert lines + [heading] + (more + [line]) == all + [line];
  }

  lemma AfterSection(lines: seq<string>, heading: string, at: nat, end: nat, more: seq<string>, line: string)
    requires RunsTo(lines, heading, at, end) && HasNoTop(more)
    ensures Inserted(InsertAt(lines, end, more), heading, line) == InsertAt(lines, end, more + [line])
  {
    LongerSection(lines, heading, at, end, more);
    InsertedWhere(InsertAt(lines, end, more), heading, at, end + |more|, line);
    InsertBehind(lines, end, more, line);
  }

  /** One more bullet goes behind those that were appended before. */
  lemma InsertedAfterOthers(lines: seq<string>, heading: string, more: seq<string>, line: string)
    requires Strip(heading) == heading && |more| > 0 && HasNoTop(more)
    ensures Inserted(InsertedAll(lines, heading, more), heading, line) == InsertedAll(lines, heading, more + [line])
  {
    if FirstHeading(lines, heading) == |lines| {
      InsertedAllNew(lines, heading, more);
      InsertedAllNew(lines, heading, more + [line]);
      AfterNewSection(lines, heading, more, line);
    } else {
      var at, end := SectionRuns(lines, heading);
      InsertedAllWhere(lines, heading, at, end, more);
      InsertedAllWhere(lines, heading, at, end, more + [line]);
      AfterSection(lines, heading, at, end, more, line);
    }
  }

  function AppendedEach(body: string, section: string, bullets: seq<string>): string {
    if |bullets| == 0 then body
    else Appended(AppendedEach(body, section, bullets[..|bullets| - 1]), section, bullets[|bullets| - 1])
  }

  function BulletLines(bullets: seq<string>): seq<string> {
    seq(|bullets|, i requires 0 <= i < |bullets| => BULLET + bullets[i])
  }

  lemma BulletLinesSnoc(bullets: seq<string>, last: string)
    ensures BulletLines(bullets + [last]) == BulletLines(bullets) + [BULLET + last]
  {
  }

  lemma BulletsAreNoTops(bullets: seq<string>)
    ensures HasNoTop(BulletLines(bullets))
  {
    forall i | 0 <= i < |bullets| ensures !IsTop(BulletLines(bullets)[i]) {
      BulletIsVisible(bullets[i]);
    }
  }

  lemma InsertedFirst(lines: seq<string>, heading: string, line: string)
    ensures Inserted(lines, heading, line) == InsertedAll(lines, heading, [line])
  {
    assert lines + [heading] + [line] == lines + [heading, line];
  }

  lemma OneMoreBullet(text: string, section: string, bullet: string, lines: seq<string>, more: seq<string>)
    requires section != "" && Strip(section) == section && IsOneLine(section) && IsOneLine(bullet)
    requires |more| > 0 && HasNoTop(more) && Visible(SplitLines(text)) == InsertedAll(lines, HEADING + section, more)
    ensures Visible(SplitLines(Appended(text, section, bullet))) ==
            InsertedAll(lines, HEADING + section, more + [BULLET + bullet])
  {
    AppendInsertsOneLine(text, section, bullet);
    HeadingIsStripped(section);
    InsertedAfterOthers(lines, HEADING + section, more, BULLET + bullet);
  }

  /** The bullets stand in the section in the order in which they were appended. */
  ghost predicate StandInOrder(body: string, section: string, bullets: seq<string>) {
    Visible(SplitLines(AppendedEach(body, section, bullets))) ==
    InsertedAll(Visible(SplitLines(body)), HEADING + section, BulletLines(bullets))
  }

  lemma OneBullet(body: string, section: string, bullet: string)
    ensures AppendedEach(body, section, [bullet]) == Appended(body, section, bullet)
    ensures BulletLines([bullet]) == [BULLET + bullet]
  {
    AppendedSnoc(body, section, [], bullet);
    assert [] + [bullet] == [bullet];
  }

  lemma FirstInOrder(body: string, section: string, bullet: string)
    requires section != "" && Strip(section) == section && IsOneLine(section) && IsOneLine(bullet)
    ensures StandInOrder(body, section, [bullet])
  {
    OneBullet(body, section, bullet);
    FirstBullet(body, section, bullet);
  }

  lemma FirstBullet(body: string, section: string, bullet: string)
    requires section != "" && Strip(section) == section && IsOneLine(section) && IsOneLine(bullet)
    ensures Visible(SplitLines(Appended(body, section, bullet))) ==
            InsertedAll(Visible(SplitLines(body)), HEADING + section, [BULLET + bullet])
  {
    AppendInsertsOneLine(body, section, bullet);
    InsertedFirst(Visible(SplitLines(body)), HEADING + section, BULLET + bullet);
  }

  lemma NextInOrder(body: string, section: string, before: seq<string>, last: string)
    requires section != "" && Strip(section) == section && IsOneLine(section) && IsOneLine(last)
    requires |before| > 0 && StandInOrder(body, section, before)
    ensures StandInOrder(body, section, before + [last])
  {
    AppendedSnoc(body, section, before, last);
    BulletLinesSnoc(before, last);
    BulletsAreNoTops(before);
    OneMoreBullet(AppendedEach(body, section, before), section, last, Visible(SplitLines(body)), BulletLines(before));
  }

  lemma AppendedSnoc(body: string, section: string, before: seq<string>, last: string)
    ensures AppendedEach(body, section, before + [last]) == Appended(AppendedEach(body, section, before), section, last)
  {
    assert (before + [last])[..|before|] == before;
  }

  /** Bullets appended one after the other to one section stand there in this order. */
  lemma {:induction false} RepeatedAppendsKeepOrder(body: string, section: string, bullets: seq<string>)
    requires section != "" && Strip(section) == section && IsOneLine(section)
    requires |bullets| > 0 && AreLines(bullets)
    ensures Visible(SplitLines(AppendedEach(body, section, bullets))) ==
            InsertedAll(Visible(SplitLines(body)), HEADING + section, BulletLines(bullets))
    ensures StandInOrder(body, section, bullets)
  {
    var n := |bullets| - 1;
    assert IsOneLine(bullets[n]) && bullets == bullets[..n] + [bullets[n]];
    if n == 0 {
      assert bullets == [bullets[0]];
      FirstInOrder(body, section, bullets[0]);
    } else {
      RepeatedAppendsKeepOrder(body, section, bullets[..n]);
      NextInOrder(body, section, bullets[..n], bullets[n]);
    }
  }

  // ----- Two sections

  /** A line put in before the heading, within the section, or behind it. */
  lemma SectionAfterInsert(lines: seq<string>, heading: string, at: nat, end: nat, i: nat, line: string)
    requires RunsTo(lines, heading, at, end) && i <= |lines| && !IsTop(line) && Strip(line) != heading
    ensures RunsTo(InsertAt(lines, i, [line]), heading, if i <= at then at + 1 else at,
                   if i <= end then end + 1 else end)
  {
    var longer := InsertAt(lines, i, [line]);
    assert longer[i] == line;
    assert forall j :: 0 <= j < i ==> longer[j] == lines[j];
    assert forall j :: i < j < |longer| ==> longer[j] == lines[j - 1];
  }

  lemma InsertsCommute(lines: seq<string>, i: nat, j: nat, a: string, b: string)
    requires i < j <= |lines|
    ensures InsertAt(InsertAt(lines, i, [a]), j + 1, [b]) == InsertAt(InsertAt(lines, j, [b]), i, [a])
  {
    var first, second := InsertAt(lines, i, [a]), InsertAt(lines, j, [b]);
    assert first[..j + 1] == lines[..i] + [a] + lines[i..j] && first[j + 1..] == lines[j..];
    assert second[..i] == lines[..i] && second[i..] == lines[i..j] + [b] + lines[j..];
  }

  lemma InsertsInOnePlace(lines: seq<string>, i: nat, a: string, b: string)
    requires i <= |lines|
    ensures InsertAt(InsertAt(lines, i, [a]), i + 1, [b]) == InsertAt(InsertAt(lines, i, [b]), i + 1, [a]) <==> a == b
  {
    assert InsertAt(InsertAt(lines, i, [a]), i + 1, [b])[i] == a;
    assert InsertAt(InsertAt(lines, i, [b]), i + 1, [a])[i] == b;
  }

  /**
   * Two bullets for two sections of a text may be appended in either order exactly when the first section ends
   * before the second heading, as it does when headings are not indented, or the bullets are the same.
   */
  lemma AppendsCommuteIff(lines: seq<string>, h: string, h': string, at: nat, at': nat, end: nat, end': nat, b: string,
                          b': string)
    requires h != h' && RunsTo(lines, h, at, end) && RunsTo(lines, h', at', end') && at < at'
    requires !IsTop(b) && !IsTop(b') && Strip(b) != h' && Strip(b') != h
    ensures Inserted(Inserted(lines, h, b), h', b') == Inserted(Inserted(lines, h', b'), h, b) <==>
            end <= at' || b == b'
  {
    if end <= at' {
      AppendsApart(lines, h, h', at, at', end, end', b, b');
    } else {
      if end < |lines| {
        EndsBy(lines, h', at', end', end);
      }
      if end' < |lines| {
        EndsBy(lines, h, at, end, end');
      }
      AppendsNested(lines, h, h', at, at', end, b, b');
    }
  }

  /** Two bullets one after the other, when the second section ends at or behind the end of the first. */
  lemma OneThenOther(lines: seq<string>, h: string, h': string, at: nat, at': nat, end: nat, end': nat, b: string,
                     b': string)
    requires RunsTo(lines, h, at, end) && RunsTo(lines, h', at', end') && end <= end'
    requires !IsTop(b) && Strip(b) != h'
    ensures Inserted(Inserted(lines, h, b), h', b') == InsertAt(InsertAt(lines, end, [b]), end' + 1, [b'])
  {
    InsertedWhere(lines, h, at, end, b);
    SectionAfterInsert(lines, h', at', end', end, b);
    InsertedWhere(InsertAt(lines, end, [b]), h', if end <= at' then at' + 1 else at', end' + 1, b');
  }

  lemma OtherThenOne(lines: seq<string>, h: string, h': string, at: nat, at': nat, end: nat, end': nat, b: string,
                     b': string)
    requires RunsTo(lines, h, at, end) && RunsTo(lines, h', at', end') && end < end'
    requires !IsTop(b') && Strip(b') != h
    ensures Inserted(Inserted(lines, h', b'), h, b) == InsertAt(InsertAt(lines, end', [b']), end, [b])
  {
    InsertedWhere(lines, h', at', end', b');
    SectionAfterInsert(lines, h, at, end, end', b');
    InsertedWhere(InsertAt(lines, end', [b']), h, at, end, b);
  }

  lemma AppendsApart(lines: seq<string>, h: string, h': string, at: nat, at': nat, end: nat, end': nat, b: string,
                     b': string)
    requires RunsTo(lines, h, at, end) && RunsTo(lines, h', at', end') && at < end <= at'
    requires !IsTop(b) && !IsTop(b') && Strip(b) != h' && Strip(b') != h
    ensures Inserted(Inserted(lines, h, b), h', b') == Inserted(Inserted(lines, h', b'), h, b)
  {
    OneThenOther(lines, h, h', at, at', end, end', b, b');
    OtherThenOne(lines, h, h', at, at', end, end', b, b');
    InsertsCommute(lines, end, end', b, b');
  }

  lemma AppendsNested(lines: seq<string>, h: string, h': string, at: nat, at': nat, end: nat, b: string, b': string)
    requires RunsTo(lines, h, at, end) && RunsTo(lines, h', at', end) && at < at'
    requires !IsTop(b) && !IsTop(b') && Strip(b) != h' && Strip(b') != h
    ensures Inserted(Inserted(lines, h, b), h', b') == Inserted(Inserted(lines, h', b'), h, b) <==> b == b'
  {
    OneThenOther(lines, h, h', at, at', end, end, b, b');
    OneThenOther(lines, h', h, at', at, end, end, b', b);
    InsertsInOnePlace(lines, end, b, b');
  }

  lemma EndsBy(lines: seq<string>, heading: string, at: nat, end: nat, k: nat)
    requires RunsTo(lines, heading, at, end) && at < k < |lines| && IsTop(lines[k])
    ensures end <= k
  {
  }

  lemma UnindentedHeadingEndsSection(lines: seq<string>, h: string, h': string, at: nat, at': nat, end: nat, end': nat)
    requires RunsTo(lines, h, at, end) && RunsTo(lines, h', at', end') && at < at' && IsTop(lines[at'])
    ensures end <= at'
  {
  }

  predicate SameVisible(text: string, text': string) {
    Visible(SplitLines(text)) == Visible(SplitLines(text'))
  }

  /** The same for texts, up to blank lines. */
  lemma TextAppendsCommuteIff(body: string, section: string, section': string, at: nat, at': nat, end: nat, end': nat,
                              b: string, b': string)
    requires var lines := Visible(SplitLines(body));
             RunsTo(lines, HEADING + section, at, end) && RunsTo(lines, HEADING + section', at', end') && at < at'
    requires section != section' && IsOneLine(section) && IsOneLine(section') && IsOneLine(b) && IsOneLine(b')
    ensures SameVisible(Appended(Appended(body, section, b), section', b'),
                        Appended(Appended(body, section', b'), section, b)) <==>
            end <= at' || b == b'
  {
    var lines, h, h' := Visible(SplitLines(body)), HEADING + section, HEADING + section';
    var line, line' := BULLET + b, BULLET + b';
    AppendInsertsOneLine(body, section, b);
    AppendInsertsOneLine(body, section', b');
    AppendInsertsOneLine(Appended(body, section, b), section', b');
    AppendInsertsOneLine(Appended(body, section', b'), section, b);
    BulletIsNoHeading(b, section);
    BulletIsNoHeading(b, section');
    BulletIsNoHeading(b', section);
    BulletIsNoHeading(b', section');
    assert h[|HEADING|..] == section && h'[|HEADING|..] == section';
    assert line[|BULLET|..] == b && line'[|BULLET|..] == b';
    AppendsCommuteIff(lines, h, h', at, at', end, end', line, line');
  }

  /** A second heading that is indented: appends to the two sections do not commute. */
  lemma IndentedHeadingDoesNotCommute(section: string, section': string, b: string, b': string)
    requires section != "" && Strip(section) == section && IsOneLine(section)
    requires section' != "" && Strip(section') == section' && IsOneLine(section') && section != section'
    requires IsOneLine(b) && IsOneLine(b') && b != b'
    ensures var body := Lines([HEADING + section, " " + (HEADING + section')]);
            !SameVisible(Appended(Appended(body, section, b), section', b'),
                         Appended(Appended(body, section', b'), section, b))
  {
    var one, two := HEADING + section, " " + (HEADING + section');
    TwoHeadings(section, section', one, two);
    SplitLinesUndoesJoin([one, two]);
    TextAppendsCommuteIff(Lines([one, two]), section, section', 0, 1, 2, 2, b, b');
  }

  lemma TwoHeadings(section: string, section': string, one: string, two: string)
    requires section != "" && Strip(section) == section && IsOneLine(section)
    requires section' != "" && Strip(section') == section' && IsOneLine(section') && section != section'
    requires one == HEADING + section && two == " " + (HEADING + section')
    ensures AreLines([one, two]) && Visible([one, two]) == [one, two]
    ensures RunsTo([one, two], HEADING + section, 0, 2) && RunsTo([one, two], HEADING + section', 1, 2)
  {
    var h, h' := HEADING + section, HEADING + section';
    HeadingIsStripped(section);
    HeadingIsStripped(section');
    assert h[|HEADING|..] == section && h'[|HEADING|..] == section';
    assert two[0] == ' ' && two[1..] == h';
    assert Strip(two) == h' && !IsTop(two);
    VisibleOfTwo(one, two);
  }

  lemma VisibleOfTwo(one: string, two: string)
    requires !IsBlank(one) && !IsBlank(two)
    ensures Visible([one, two]) == [one, two]
  {
    VisibleOfOne(two);
    assert [one, two][1..] == [two];
  }

  /** Such a text: "## a", and " ## b" below it. */
  lemma IndentedHeadingExample()
    ensures var body := Lines([HEADING + "a", " " + (HEADING + "b")]);
            !SameVisible(Appended(Appended(body, "a", "x"), "b", "y"), Appended(Appended(body, "b", "y"), "a", "x"))
  {
    IndentedHeadingDoesNotCommute("a", "b", "x", "y");
  }

  lemma {:induction false} RStripIsPrefix(s: string)
    ensures RStrip(s) <= s
  {
    if |s| > 0 && IsSpace(s[|s| - 1]) {
      RStripIsPrefix(s[..|s| - 1]);
    }
  }

  lemma BulletIsNoHeading(bullet: string, section: string)
    ensures !IsTop(BULLET + bullet) && Strip(BULLET + bullet) != HEADING + section
  {
    var line := BULLET + bullet;
    BulletIsVisible(bullet);
    assert line[0] == '-';
    EndStays(line);
    RStripIsPrefix(line);
    assert (HEADING + section)[0] == '#';
  }
}
