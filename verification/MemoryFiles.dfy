/** The text of a memory file: a header between delimiter lines, and a body. */
module MemoryFiles {
  import opened Text

  const DELIMITER := "---"
  const CLOSING := "\n---"

  datatype Parts = NoHeader | Header(front: string, body: string)

  /** `split_frontmatter`. */
  function SplitFrontmatter(text: string): Parts {
    var stripped := LStrip(text);
    if !(DELIMITER <= stripped) then NoHeader
    else
      var afterFirst := stripped[|DELIMITER|..];
      var closing := Find(afterFirst, CLOSING);
      if closing == -1 then NoHeader
      else
        var rest := afterFirst[closing + |CLOSING|..];
        var nl := Find(rest, "\n");
        Header(Strip(afterFirst[..closing]), if nl == -1 then [] else rest[nl + 1..])
  }

  /** `serialize_memory_file`, for a header that is printed already. */
  function Serialize(front: string, body: string): string {
    DELIMITER + "\n" + RStrip(front) + CLOSING + "\n" + Body(body)
  }

  /** The body as it is written: with a blank line in front, and one line end behind. */
  function Body(body: string): string {
    "\n" + RStrip(body) + "\n"
  }

  /** What reading in text mode makes of the line ends. */
  function UniversalNewlines(s: string): string
    decreases |s|
  {
    if |s| == 0 then [] else [if s[0] == '\r' then '\n' else s[0]] + UniversalNewlines(s[AtOnce(s)..])
  }

  /** A carriage return takes a line feed behind it along. */
  function AtOnce(s: string): (n: nat)
    requires |s| > 0
    ensures 1 <= n <= |s|
  {
    if s[0] == '\r' && |s| > 1 && s[1] == '\n' then 2 else 1
  }

  // ----- Line ends

  lemma {:induction false} NewlinesOfBoth(a: string, b: string)
    requires |a| > 0 && |b| > 0 ==> !(a[|a| - 1] == '\r' && b[0] == '\n')
    ensures UniversalNewlines(a + b) == UniversalNewlines(a) + UniversalNewlines(b)
    decreases |a|
  {
    if |a| == 0 {
      assert a + b == b;
    } else {
      var k := AtOnce(a);
      NewlinesOfBoth(a[k..], b);
      assert (a + b)[0] == a[0] && (|a| > 1 ==> (a + b)[1] == a[1]) && (|a| == 1 && |b| > 0 ==> (a + b)[1] == b[0]);
      assert AtOnce(a + b) == k;
      FirstPart(a, b, k);
    }
  }

  lemma RestOfBoth(a: string, b: string, k: nat)
    requires k <= |a|
    ensures (a + b)[k..] == a[k..] + b
  {
  }

  lemma FirstPart(a: string, b: string, k: nat)
    requires |a| > 0 && k == AtOnce(a) == AtOnce(a + b)
    requires UniversalNewlines(a[k..] + b) == UniversalNewlines(a[k..]) + UniversalNewlines(b)
    ensures UniversalNewlines(a + b) == UniversalNewlines(a) + UniversalNewlines(b)
  {
    RestOfBoth(a, b, k);
    assert (a + b)[0] == a[0];
    var first, x, y := [if a[0] == '\r' then '\n' else a[0]], UniversalNewlines(a[k..]), UniversalNewlines(b);
    assert first + (x + y) == (first + x) + y;
  }

  lemma {:induction false} NoReturnsNothingChanges(s: string)
    requires '\r' !in s
    ensures UniversalNewlines(s) == s
  {
    if |s| > 0 {
      NoReturnsNothingChanges(s[1..]);
    }
  }

  lemma {:induction false} NoReturnsAreLeft(s: string)
    ensures '\r' !in UniversalNewlines(s)
    decreases |s|
  {
    if |s| > 0 {
      NoReturnsAreLeft(s[AtOnce(s)..]);
    }
  }

  lemma {:induction false} SpaceStaysSpace(s: string)
    requires AllSpace(s)
    ensures AllSpace(UniversalNewlines(s))
    decreases |s|
  {
    if |s| > 0 {
      SpaceStaysSpace(s[AtOnce(s)..]);
    }
  }

  // ----- Reading back what was written

  /**
   * What a printed header must be for the file to be read back: no carriage return, and no line that starts like a
   * delimiter.
   */
  ghost predicate IsGoodHeader(front: string) {
    '\r' !in front && forall k :: !OccursAt("\n" + RStrip(front), CLOSING, k)
  }

  lemma ClosingIsFound(front: string, more: string)
    requires forall k :: !OccursAt("\n" + front, CLOSING, k)
    ensures Find("\n" + front + CLOSING + more, CLOSING) == 1 + |front|
  {
    var text, head := "\n" + front + CLOSING + more, "\n" + front;
    var at := |head|;
    assert text[at..at + |CLOSING|] == CLOSING;
    forall k | 0 <= k < at ensures !OccursAt(text, CLOSING, k) {
      if k + |CLOSING| <= at {
        assert text[k..k + |CLOSING|] == head[k..k + |CLOSING|];
        assert !OccursAt(head, CLOSING, k);
      } else {
        assert text[at] == '\n' && CLOSING[at - k] == '-';
        assert k + |CLOSING| <= |text| ==> text[k..k + |CLOSING|][at - k] == text[at];
      }
    }
    FindIsFirstOccurrence(text, CLOSING);
    FirstOccurrenceIsUnique(text, CLOSING, at, Find(text, CLOSING));
  }

  lemma LineEndIsFound(more: string)
    ensures Find("\n" + more, "\n") == 0
  {
    var text := "\n" + more;
    assert text[0..1] == "\n";
    FindIsFirstOccurrence(text, "\n");
    assert OccursAt(text, "\n", 0);
    FirstOccurrenceIsUnique(text, "\n", 0, Find(text, "\n"));
  }

  /** A file that was written splits into the header and a body that begins with a blank line, whatever follows. */
  lemma SplitWritten(front: string, rest: string)
    requires forall k :: !OccursAt("\n" + front, CLOSING, k)
    ensures SplitFrontmatter(DELIMITER + "\n" + front + CLOSING + "\n" + rest) == Header(Strip("\n" + front), rest)
  {
    var text := DELIMITER + "\n" + front + CLOSING + "\n" + rest;
    var more := "\n" + rest;
    assert text[0] == '-';
    var after := text[|DELIMITER|..];
    assert text[..|DELIMITER|] == DELIMITER;
    assert after == "\n" + front + CLOSING + more;
    ClosingIsFound(front, more);
    assert after[..1 + |front|] == "\n" + front && after[1 + |front| + |CLOSING|..] == more;
    LineEndIsFound(rest);
  }

  /** Reading a written file gives its header, and its body with the line ends of text mode. */
  lemma ReadWritten(front: string, body: string)
    requires IsGoodHeader(front)
    ensures SplitFrontmatter(UniversalNewlines(Serialize(front, body))) ==
            Header(Strip(front), UniversalNewlines(Body(body)))
  {
    var fm := RStrip(front);
    var head := DELIMITER + "\n" + fm + CLOSING + "\n";
    var trail := RStripParts(front);
    assert forall c :: c in fm ==> c in front;
    NoReturnsNothingChanges(head);
    NewlinesOfBoth(head, Body(body));
    SplitWritten(fm, UniversalNewlines(Body(body)));
    HeaderIsStripped(front, fm, trail);
  }

  lemma HeaderIsStripped(front: string, fm: string, trail: string)
    requires front == fm + trail && AllSpace(trail)
    ensures Strip("\n" + fm) == Strip(front)
  {
    var lead, core, end := StripParts(fm);
    Regrouped(lead, core, end, trail);
    StripIsCore(lead, core, end + trail);
    Regrouped("\n", lead, core, end);
    StripIsCore("\n" + lead, core, end);
  }

  lemma Regrouped(a: string, b: string, c: string, d: string)
    ensures a + b + c + d == a + b + (c + d) == a + (b + c + d)
  {
  }

  /** In text mode a carriage return ends a line, alone or with a line feed behind it. */
  lemma LineEnds(line: string, more: string)
    requires '\r' !in line
    ensures UniversalNewlines(line + ("\r\n" + more)) == line + ("\n" + UniversalNewlines(more))
    ensures (|more| > 0 ==> more[0] != '\n') ==>
              UniversalNewlines(line + ("\r" + more)) == line + ("\n" + UniversalNewlines(more))
    ensures UniversalNewlines("") == ""
  {
    var both, one := "\r\n" + more, "\r" + more;
    NewlinesOfBoth(line, both);
    NewlinesOfBoth(line, one);
    NoReturnsNothingChanges(line);
    assert both[2..] == more && one[1..] == more;
  }

  /** The delimiter in front, and the first line that begins with one behind it. */
  ghost predicate IsSplit(text: string, lead: string, front: string, rest: string) {
    && text == lead + ("---" + (front + ("\n---" + rest))) && AllSpace(lead)
    && forall k :: 0 <= k < |front| ==> !OccursAt(front + ("\n---" + rest), "\n---", k)
  }

  /** A text that is split in this way has this header, and a body from the next line on. */
  lemma SplitAsWritten(text: string, lead: string, front: string, rest: string)
    requires IsSplit(text, lead, front, rest)
    ensures SplitFrontmatter(text) ==
            Header(Strip(front), if Find(rest, "\n") == -1 then "" else rest[Find(rest, "\n") + 1..])
  {
    var inner := front + (CLOSING + rest);
    LStripSpace(lead, DELIMITER + inner);
    assert (DELIMITER + inner)[|DELIMITER|..] == inner && (DELIMITER + inner)[..|DELIMITER|] == DELIMITER;
    assert inner[|front|..|front| + |CLOSING|] == CLOSING;
    FindIsFirstOccurrence(inner, CLOSING);
    FirstOccurrenceIsUnique(inner, CLOSING, |front|, Find(inner, CLOSING));
    assert inner[..|front|] == front && inner[|front| + |CLOSING|..] == rest;
  }

  lemma CutAt(s: string, pat: string) returns (front: string, rest: string)
    requires Find(s, pat) != -1
    ensures s == front + (pat + rest) && |front| == Find(s, pat)
    ensures forall k :: 0 <= k < |front| ==> !OccursAt(s, pat, k)
  {
    var at := Find(s, pat);
    FindIsFirstOccurrence(s, pat);
    front, rest := s[..at], s[at + |pat|..];
    assert s == s[..at] + (s[at..at + |pat|] + s[at + |pat|..]);
  }

  /** And every header is of a text that is. */
  lemma HeaderIsSplit(text: string) returns (lead: string, front: string, rest: string)
    ensures SplitFrontmatter(text).Header? ==> IsSplit(text, lead, front, rest)
  {
    lead, front, rest := "", "", "";
    if SplitFrontmatter(text).Header? {
      lead := LStripParts(text);
      var stripped := LStrip(text);
      var inner := stripped[|DELIMITER|..];
      front, rest := CutAt(inner, CLOSING);
      assert stripped == DELIMITER + inner;
    }
  }

  /** The body of a file is part of its text. */
  lemma BodyIsPartOf(text: string)
    ensures SplitFrontmatter(text).Header? ==> forall c :: c in SplitFrontmatter(text).body ==> c in text
  {
    var stripped := LStrip(text);
    var lead := LStripParts(text);
    assert forall c :: c in stripped ==> c in text;
  }

  /** The body is read back as it was, up to white space around it, exactly when it has no carriage return inside. */
  lemma BodyIsReadBackIff(body: string)
    ensures Strip(UniversalNewlines(Body(body))) == Strip(body) <==> '\r' !in Strip(body)
  {
    var lead, core, trail := StripParts(body);
    StripIsCore(lead, core, trail);
    if '\r' in core {
      var read := UniversalNewlines(Body(body));
      NoReturnsAreLeft(Body(body));
      var a, b, c := StripParts(read);
      assert forall x :: x in b ==> x in read;
    } else {
      CoreIsReadBack(lead, core, trail, body);
    }
  }

  lemma CoreIsReadBack(lead: string, core: string, trail: string, body: string)
    requires body == lead + core + trail && AllSpace(lead) && AllSpace(trail) && IsCore(core) && '\r' !in core
    ensures Strip(UniversalNewlines(Body(body))) == core
  {
    StripIsCore(lead, core, trail);
    var front, end := "\n" + (if core == [] then [] else lead), core + "\n";
    BodyOfParts(body, if core == [] then [] else lead, core);
    NewlinesOfBoth(front, end);
    NoReturnsNothingChanges(end);
    SpaceStaysSpace(front);
    SpaceAround(UniversalNewlines(front), core);
  }

  lemma BodyOfParts(body: string, lead: string, core: string)
    requires RStrip(body) == lead + core
    ensures Body(body) == ("\n" + lead) + (core + "\n")
  {
    assert "\n" + (lead + core) + "\n" == ("\n" + lead) + (core + "\n");
  }

  lemma SpaceAround(lead: string, core: string)
    requires AllSpace(lead) && IsCore(core)
    ensures Strip(lead + (core + "\n")) == core
  {
    assert lead + (core + "\n") == lead + core + "\n";
    StripIsCore(lead, core, "\n");
  }
}
