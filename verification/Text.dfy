/** String operations of the host languages that several components call. */
module Text {

  /** `pat` occurs in `s` at index `k`. */
  predicate OccursAt(s: string, pat: string, k: int) {
    0 <= k && k + |pat| <= |s| && s[k..k + |pat|] == pat
  }

  /** `r` is the least index at which `pat` occurs in `s`, or -1 if there is none. */
  ghost predicate IsFirstOccurrence(s: string, pat: string, r: int) {
    if r == -1 then forall k :: !OccursAt(s, pat, k)
    else OccursAt(s, pat, r) && forall k :: k < r ==> !OccursAt(s, pat, k)
  }

  /** Python's `str.find`; `FindIsFirstOccurrence` says what it returns. */
  function Find(s: string, pat: string): (r: int)
    ensures r == -1 || (0 <= r && r + |pat| <= |s|)
  {
    FindFrom(s, pat, 0)
  }

  function FindFrom(s: string, pat: string, i: nat): (r: int)
    ensures r == -1 || (i <= r && r + |pat| <= |s|)
    decreases |s| - i
  {
    if i + |pat| > |s| then -1
    else if OccursAt(s, pat, i) then i
    else FindFrom(s, pat, i + 1)
  }

  lemma FindIsFirstOccurrence(s: string, pat: string)
    ensures IsFirstOccurrence(s, pat, Find(s, pat))
  {
    FindFromIsFirst(s, pat, 0);
  }

  lemma {:induction false} FindFromIsFirst(s: string, pat: string, i: nat)
    ensures var r := FindFrom(s, pat, i);
            if r == -1 then forall k :: i <= k ==> !OccursAt(s, pat, k)
            else OccursAt(s, pat, r) && forall k :: i <= k < r ==> !OccursAt(s, pat, k)
    decreases |s| - i
  {
    if i + |pat| <= |s| && !OccursAt(s, pat, i) {
      FindFromIsFirst(s, pat, i + 1);
    }
  }

  lemma FirstOccurrenceIsUnique(s: string, pat: string, q: int, r: int)
    requires IsFirstOccurrence(s, pat, q) && IsFirstOccurrence(s, pat, r)
    ensures q == r
  {
  }

  // ----- White space

  /** The characters that Python counts as white space. */
  predicate IsSpace(c: char) {
    var u := c as int;
    9 <= u <= 13 || 28 <= u <= 32 || u == 0x85 || u == 0xa0 || u == 0x1680 || 0x2000 <= u <= 0x200a ||
    u == 0x2028 || u == 0x2029 || u == 0x202f || u == 0x205f || u == 0x3000
  }

  /** Python's `str.lstrip`. */
  function LStrip(s: string): string {
    if |s| > 0 && IsSpace(s[0]) then LStrip(s[1..]) else s
  }

  /** Python's `str.rstrip`. */
  function RStrip(s: string): string {
    if |s| > 0 && IsSpace(s[|s| - 1]) then RStrip(s[..|s| - 1]) else s
  }

  /** Python's `str.strip`. */
  function Strip(s: string): string {
    RStrip(LStrip(s))
  }

  // ----- White space around a text

  ghost predicate AllSpace(s: string) {
    forall i :: 0 <= i < |s| ==> IsSpace(s[i])
  }

  /** No white space at either end. */
  ghost predicate IsCore(s: string) {
    |s| > 0 ==> !IsSpace(s[0]) && !IsSpace(s[|s| - 1])
  }

  lemma {:induction false} LStripSpace(lead: string, s: string)
    requires AllSpace(lead) && (|s| > 0 ==> !IsSpace(s[0]))
    ensures LStrip(lead + s) == s
  {
    if |lead| == 0 {
      assert lead + s == s;
    } else {
      LStripSpace(lead[1..], s);
      assert (lead + s)[1..] == lead[1..] + s;
    }
  }

  lemma {:induction false} RStripSpace(s: string, trail: string)
    requires AllSpace(trail) && (|s| > 0 ==> !IsSpace(s[|s| - 1]))
    ensures RStrip(s + trail) == s
  {
    if |trail| == 0 {
      assert s + trail == s;
    } else {
      var n := |trail| - 1;
      RStripSpace(s, trail[..n]);
      assert (s + trail)[..|s + trail| - 1] == s + trail[..n] && (s + trail)[|s + trail| - 1] == trail[n];
    }
  }

  lemma StripOfSpace(lead: string, trail: string)
    requires AllSpace(lead) && AllSpace(trail)
    ensures Strip(lead + [] + trail) == [] && RStrip(lead + [] + trail) == []
  {
    var all := lead + [] + trail;
    assert AllSpace(all) && all + [] == all && [] + all == all;
    LStripSpace(all, []);
    RStripSpace([], all);
  }

  lemma StripOfCore(lead: string, core: string, trail: string)
    requires AllSpace(lead) && AllSpace(trail) && IsCore(core) && core != []
    ensures Strip(lead + core + trail) == core && RStrip(lead + core + trail) == lead + core
  {
    assert lead + core + trail == lead + (core + trail);
    LStripSpace(lead, core + trail);
    RStripSpace(core, trail);
    assert (lead + core)[|lead + core| - 1] == core[|core| - 1];
    RStripSpace(lead + core, trail);
  }

  lemma StripIsCore(lead: string, core: string, trail: string)
    requires AllSpace(lead) && AllSpace(trail) && IsCore(core)
    ensures Strip(lead + core + trail) == core
    ensures RStrip(lead + core + trail) == if core == [] then [] else lead + core
  {
    if core == [] {
      StripOfSpace(lead, trail);
    } else {
      StripOfCore(lead, core, trail);
    }
  }

  lemma {:induction false} LStripParts(s: string)
    returns (lead: string)
    ensures AllSpace(lead) && s == lead + LStrip(s) && (|LStrip(s)| > 0 ==> !IsSpace(LStrip(s)[0]))
  {
    if |s| > 0 && IsSpace(s[0]) {
      var rest := LStripParts(s[1..]);
      lead := [s[0]] + rest;
      assert [s[0]] + (rest + LStrip(s)) == lead + LStrip(s);
    } else {
      lead := [];
    }
  }

  lemma {:induction false} RStripParts(s: string)
    returns (trail: string)
    ensures AllSpace(trail) && s == RStrip(s) + trail && (|RStrip(s)| > 0 ==> !IsSpace(RStrip(s)[|RStrip(s)| - 1]))
  {
    if |s| > 0 && IsSpace(s[|s| - 1]) {
      var rest := RStripParts(s[..|s| - 1]);
      trail := rest + [s[|s| - 1]];
      assert (RStrip(s) + rest) + [s[|s| - 1]] == RStrip(s) + trail;
    } else {
      trail := [];
    }
  }

  lemma Associative(a: string, b: string, c: string)
    ensures a + b + c == a + (b + c)
  {
  }

  lemma StripParts(s: string)
    returns (lead: string, core: string, trail: string)
    ensures s == lead + core + trail && AllSpace(lead) && AllSpace(trail) && IsCore(core) && core == Strip(s)
  {
    lead := LStripParts(s);
    trail := RStripParts(LStrip(s));
    core := Strip(s);
    Associative(lead, core, trail);
    assert |core| > 0 ==> core[0] == (core + trail)[0];
  }

  // ----- Letter case

  /** `str.lower` on ASCII letters. */
  function LowerChar(c: char): char {
    if 'A' <= c <= 'Z' then (c as int + 32) as char else c
  }

  function Lower(s: string): (r: string)
    ensures |r| == |s| && forall k :: 0 <= k < |s| ==> r[k] == LowerChar(s[k])
  {
    if |s| == 0 then "" else [LowerChar(s[0])] + Lower(s[1..])
  }

  // ----- Fields

  /** Python's `sep.join`. */
  function Join(parts: seq<string>, sep: string): string {
    if |parts| == 0 then ""
    else if |parts| == 1 then parts[0]
    else parts[0] + sep + Join(parts[1..], sep)
  }

  /** Python's `str.split` with a separator of one character. */
  function Split(s: string, sep: char): (parts: seq<string>)
    ensures |parts| > 0
  {
    if |s| == 0 then [""]
    else
      var rest := Split(s[1..], sep);
      if s[0] == sep then [""] + rest else [[s[0]] + rest[0]] + rest[1..]
  }

  lemma {:induction false} SplitField(field: string, rest: string, sep: char)
    requires sep !in field
    ensures Split(field + [sep] + rest, sep) == [field] + Split(rest, sep)
  {
    if |field| == 0 {
      assert (field + [sep] + rest)[1..] == rest;
    } else {
      SplitField(field[1..], rest, sep);
      assert (field + [sep] + rest)[1..] == field[1..] + [sep] + rest;
      assert [field[0]] + field[1..] == field;
    }
  }

  lemma {:induction false} SplitLastField(field: string, sep: char)
    requires sep !in field
    ensures Split(field, sep) == [field]
  {
    if |field| > 0 {
      SplitLastField(field[1..], sep);
      assert [field[0]] + field[1..] == field;
    }
  }

  /** Splitting undoes joining when no field holds the separator. */
  lemma {:induction false} SplitUndoesJoin(parts: seq<string>, sep: char)
    requires |parts| > 0 && forall k :: 0 <= k < |parts| ==> sep !in parts[k]
    ensures Split(Join(parts, [sep]), sep) == parts
  {
    if |parts| == 1 {
      SplitLastField(parts[0], sep);
      assert parts == [parts[0]];
    } else {
      var rest := parts[1..];
      SplitUndoesJoin(rest, sep);
      SplitField(parts[0], Join(rest, [sep]), sep);
      assert parts == [parts[0]] + rest;
    }
  }

  /** Joining undoes splitting on every text. */
  lemma {:induction false} JoinUndoesSplit(s: string, sep: char)
    ensures Join(Split(s, sep), [sep]) == s
  {
    if |s| > 0 {
      JoinUndoesSplit(s[1..], sep);
      var rest := Split(s[1..], sep);
      if s[0] == sep {
        assert ([""] + rest)[1..] == rest;
      } else {
        var parts := [[s[0]] + rest[0]] + rest[1..];
        assert parts[1..] == rest[1..];
      }
    }
  }
}
