/** The list of sessions to pick from: a filter that takes the letters of the query in order, and a selection. */
module SessionPicker {
  import opened Text

  datatype Session = Session(title: string, cwd: string, sessionId: string)

  function Haystack(session: Session): string {
    Lower(session.title + " " + session.cwd + " " + session.sessionId)
  }

  /** What JavaScript's `trim` removes. */
  predicate IsTrimmed(c: char) {
    var u := c as int;
    9 <= u <= 13 || u == 32 || u == 0xa0 || u == 0x1680 || 0x2000 <= u <= 0x200a ||
    u == 0x2028 || u == 0x2029 || u == 0x202f || u == 0x205f || u == 0x3000 || u == 0xfeff
  }

  function Trim(s: string): string {
    if |s| > 0 && IsTrimmed(s[0]) then Trim(s[1..])
    else if |s| > 0 && IsTrimmed(s[|s| - 1]) then Trim(s[..|s| - 1])
    else s
  }

  function Needle(query: string): string {
    Lower(Trim(query))
  }

  // ----- Letters in order

  /** `at` says where each letter of the query stands in the text, left to right. */
  ghost predicate IsEmbedding(query: string, text: string, at: seq<int>) {
    && |at| == |query|
    && (forall k :: 0 <= k < |at| ==> 0 <= at[k] < |text| && text[at[k]] == query[k])
    && (forall j, k :: 0 <= j < k < |at| ==> at[j] < at[k])
  }

  ghost predicate IsSubsequence(query: string, text: string) {
    exists at :: IsEmbedding(query, text, at)
  }

  /** The letters of the query from `from` on, found greedily from `index` on. */
  predicate GreedyFrom(query: string, from: nat, text: string, index: nat)
    requires from <= |query| && index <= |text|
    decreases |query| - from
  {
    from == |query| ||
    (var i := NextIndex(text, query[from], index); i < |text| && GreedyFrom(query, from + 1, text, i + 1))
  }

  /** `indexOf` with a start, for one letter; the length of the text if there is none. */
  function NextIndex(text: string, c: char, index: nat): (i: nat)
    requires index <= |text|
    ensures index <= i <= |text| && (i < |text| ==> text[i] == c)
    ensures forall j :: index <= j < i ==> text[j] != c
    decreases |text| - index
  {
    if index == |text| || text[index] == c then index else NextIndex(text, c, index + 1)
  }

  lemma {:induction false} GreedyFinds(query: string, from: nat, text: string, index: nat) returns (at: seq<int>)
    requires from <= |query| && index <= |text| && GreedyFrom(query, from, text, index)
    ensures IsEmbedding(query[from..], text, at) && forall k :: 0 <= k < |at| ==> at[k] >= index
    decreases |query| - from
  {
    if from == |query| {
      at := [];
    } else {
      var i := NextIndex(text, query[from], index);
      var rest := GreedyFinds(query, from + 1, text, i + 1);
      at := [i] + rest;
      assert query[from..] == [query[from]] + query[from + 1..];
    }
  }

  /** Taking the first place there is for each letter misses no way to find them all. */
  lemma {:induction false} GreedyMissesNone(query: string, from: nat, text: string, index: nat, at: seq<int>)
    requires from <= |query| && index <= |text|
    requires IsEmbedding(query[from..], text, at) && forall k :: 0 <= k < |at| ==> at[k] >= index
    ensures GreedyFrom(query, from, text, index)
    decreases |query| - from
  {
    if from < |query| {
      var i := NextIndex(text, query[from], index);
      assert text[at[0]] == query[from..][0] == query[from];
      assert i <= at[0];
      forall k | 0 <= k < |at[1..]| ensures at[1..][k] >= i + 1 && text[at[1..][k]] == query[from + 1..][k] {
        assert at[0] < at[k + 1] && query[from..][k + 1] == query[from + 1..][k];
      }
      GreedyMissesNone(query, from + 1, text, i + 1, at[1..]);
    }
  }

  lemma GreedyIffSubsequence(query: string, text: string)
    ensures GreedyFrom(query, 0, text, 0) <==> IsSubsequence(query, text)
  {
    assert query[0..] == query;
    if GreedyFrom(query, 0, text, 0) {
      var at := GreedyFinds(query, 0, text, 0);
    } else if IsSubsequence(query, text) {
      var at :| IsEmbedding(query, text, at);
      GreedyMissesNone(query, 0, text, 0, at);
    }
  }

  /** The inner loop of the filter. */
  method HasLetters(query: string, haystack: string) returns (found: bool)
    ensures found <==> IsSubsequence(query, haystack)
  {
    GreedyIffSubsequence(query, haystack);
    var index: nat := 0;
    for k := 0 to |query|
      invariant index <= |haystack|
      invariant GreedyFrom(query, 0, haystack, 0) == GreedyFrom(query, k, haystack, index)
    {
      index := NextIndex(haystack, query[k], index);
      if index == |haystack| {
        return false;
      }
      index := index + 1;
    }
    return true;
  }

  // ----- The filter

  ghost predicate IsShown(session: Session, query: string) {
    |Needle(query)| == 0 || IsSubsequence(Needle(query), Haystack(session))
  }

  /** `at` says where each letter of the query stands in the text, small or capital. */
  ghost predicate StandsAt(query: string, text: string, at: seq<int>) {
    && |at| == |query| && (forall j, k :: 0 <= j < k < |at| ==> at[j] < at[k])
    && forall k :: 0 <= k < |at| ==> 0 <= at[k] < |text| && LowerChar(text[at[k]]) == LowerChar(query[k])
  }

  ghost predicate StandsIn(query: string, text: string) {
    exists at :: StandsAt(query, text, at)
  }

  lemma StandsInIff(query: string, text: string)
    ensures StandsIn(query, text) <==> IsSubsequence(Lower(query), Lower(text))
  {
    if at :| StandsAt(query, text, at) {
      assert IsEmbedding(Lower(query), Lower(text), at);
    }
    if at :| IsEmbedding(Lower(query), Lower(text), at) {
      forall k | 0 <= k < |at| ensures LowerChar(text[at[k]]) == LowerChar(query[k]) {
        assert Lower(text)[at[k]] == Lower(query)[k];
      }
      assert StandsAt(query, text, at);
    }
  }

  ghost predicate IsTrimmedAround(s: string, lead: string, core: string, trail: string) {
    && s == lead + core + trail
    && (forall k :: 0 <= k < |lead| ==> IsTrimmed(lead[k])) && (forall k :: 0 <= k < |trail| ==> IsTrimmed(trail[k]))
  }

  lemma MoreInFront(c: char, s: string, lead: string, core: string, trail: string)
    requires IsTrimmedAround(s, lead, core, trail) && IsTrimmed(c)
    ensures IsTrimmedAround([c] + s, [c] + lead, core, trail)
  {
  }

  lemma MoreBehind(c: char, s: string, lead: string, core: string, trail: string)
    requires IsTrimmedAround(s, lead, core, trail) && IsTrimmed(c)
    ensures IsTrimmedAround(s + [c], lead, core, trail + [c])
  {
  }

  /** What is left of a text without the white space around it. */
  lemma {:induction false} TrimParts(s: string) returns (lead: string, trail: string)
    ensures IsTrimmedAround(s, lead, Trim(s), trail)
    ensures |Trim(s)| > 0 ==> !IsTrimmed(Trim(s)[0]) && !IsTrimmed(Trim(s)[|Trim(s)| - 1])
  {
    lead, trail := "", "";
    if |s| > 0 && IsTrimmed(s[0]) {
      var rest := s[1..];
      var front, back := TrimParts(rest);
      MoreInFront(s[0], rest, front, Trim(rest), back);
      assert s == [s[0]] + rest;
      lead, trail := [s[0]] + front, back;
    } else if |s| > 0 && IsTrimmed(s[|s| - 1]) {
      var n := |s| - 1;
      var front, back := TrimParts(s[..n]);
      MoreBehind(s[n], s[..n], front, Trim(s[..n]), back);
      assert s == s[..n] + [s[n]];
      lead, trail := front, back + [s[n]];
    }
  }

  /**
   * A session is shown when the trimmed query is empty, or its letters stand in title, directory and id, in this order.
   */
  lemma ShownIff(session: Session, query: string)
    ensures IsShown(session, query) <==>
            Trim(query) == "" || StandsIn(Trim(query), session.title + " " + session.cwd + " " + session.sessionId)
  {
    StandsInIff(Trim(query), session.title + " " + session.cwd + " " + session.sessionId);
  }

  /** The sessions that the query leaves, in their order. */
  ghost function Filtered(sessions: seq<Session>, query: string): seq<Session> {
    if |sessions| == 0 then []
    else
      var last := sessions[|sessions| - 1];
      Filtered(sessions[..|sessions| - 1], query) + if IsShown(last, query) then [last] else []
  }

  lemma {:induction false} EmptyQueryShowsAll(sessions: seq<Session>, query: string)
    requires |Needle(query)| == 0
    ensures Filtered(sessions, query) == sessions
  {
    if |sessions| > 0 {
      EmptyQueryShowsAll(sessions[..|sessions| - 1], query);
    }
  }

  /** `filterSessions`. */
  method FilterSessions(sessions: seq<Session>, query: string) returns (filtered: seq<Session>)
    ensures filtered == Filtered(sessions, query)
  {
    var needle := Needle(query);
    if |needle| == 0 {
      EmptyQueryShowsAll(sessions, query);
      return sessions;
    }
    filtered := [];
    for i := 0 to |sessions|
      invariant filtered == Filtered(sessions[..i], query)
    {
      assert sessions[..i + 1][..i] == sessions[..i];
      var found := HasLetters(needle, Haystack(sessions[i]));
      if found {
        filtered := filtered + [sessions[i]];
      }
    }
    assert sessions[..|sessions|] == sessions;
  }

  // ----- The selection

  class PickerState {
    var sessions: seq<Session>
    var query: string
    var selected: int
    const pageSize: nat

    constructor (sessions: seq<Session>, pageSize: nat)
      ensures this.sessions == sessions && this.pageSize == pageSize && query == [] && selected == 0
    {
      this.sessions, this.pageSize, query, selected := sessions, pageSize, [], 0;
    }

    /** `movePickerSelection`: every move ends inside the filtered list, as near to where it aimed as that allows. */
    method MovePickerSelection(delta: int)
      modifies this`selected
      ensures var count := |Filtered(sessions, query)|;
              && (count == 0 ==> selected == 0)
              && (count > 0 ==> 0 <= selected < count)
              && (0 <= old(selected) + delta < count ==> selected == old(selected) + delta)
              && (count > 0 && old(selected) + delta < 0 ==> selected == 0)
              && (count > 0 && old(selected) + delta >= count ==> selected == count - 1)
    {
      var filtered := FilterSessions(sessions, query);
      var count := |filtered|;
      if count == 0 {
        selected := 0;
        return;
      }
      selected := Max(0, Min(count - 1, selected + delta));
    }
  }

  function Min(a: int, b: int): int {
    if a < b then a else b
  }

  function Max(a: int, b: int): int {
    if a > b then a else b
  }

  // ----- The page

  function PageStart(selected: int, pageSize: int): int
    requires pageSize > 0
  {
    selected / pageSize * pageSize
  }

  function Page(filtered: seq<Session>, selected: int, pageSize: int): seq<Session>
    requires 0 <= selected && pageSize > 0
  {
    var start := Min(PageStart(selected, pageSize), |filtered|);
    if start < 0 then [] else filtered[start..Min(start + pageSize, |filtered|)]
  }

  lemma PageStartIsNear(selected: int, pageSize: int)
    requires 0 <= selected && pageSize > 0
    ensures 0 <= PageStart(selected, pageSize) <= selected < PageStart(selected, pageSize) + pageSize
  {
    var q := selected / pageSize;
    assert selected == q * pageSize + selected % pageSize && q >= 0;
    assert q * pageSize >= 0;
  }

  /** The page that is shown has the selected session on it, in its place, exactly when the selection is in the list. */
  lemma SelectedIsOnPageIff(filtered: seq<Session>, selected: int, pageSize: int)
    requires 0 <= selected && pageSize > 0
    ensures var offset := selected - PageStart(selected, pageSize);
            && (0 <= offset < |Page(filtered, selected, pageSize)| <==> selected < |filtered|)
            && (selected < |filtered| ==> Page(filtered, selected, pageSize)[offset] == filtered[selected])
            && |Page(filtered, selected, pageSize)| <= pageSize
  {
    PageStartIsNear(selected, pageSize);
  }
}
