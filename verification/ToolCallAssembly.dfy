/** Tool calls put together from the fragments of a streamed response. */
module ToolCallAssembly {
  import opened Options
  import opened Text

  /** A fragment of a call; what it does not carry is empty. */
  datatype Fragment = Fragment(index: Option<int>, id: string, name: string, arguments: string)

  datatype Finish = NotFinished | ToolCalls | Stop | OtherReason

  datatype Chunk = Chunk(fragments: seq<Fragment>, finish: Finish)

  /** A call as it is emitted, its arguments as text. */
  datatype Call = Call(id: string, name: string, arguments: string)

  // ----- What a call is

  function Only(fragments: seq<Fragment>, index: int): seq<Fragment> {
    if |fragments| == 0 then []
    else
      var f := fragments[|fragments| - 1];
      Only(fragments[..|fragments| - 1], index) + if f.index == Some(index) then [f] else []
  }

  function LastId(fragments: seq<Fragment>): string {
    if |fragments| == 0 then ""
    else if |fragments[|fragments| - 1].id| > 0 then fragments[|fragments| - 1].id
    else LastId(fragments[..|fragments| - 1])
  }

  function LastName(fragments: seq<Fragment>): string {
    if |fragments| == 0 then ""
    else if |fragments[|fragments| - 1].name| > 0 then fragments[|fragments| - 1].name
    else LastName(fragments[..|fragments| - 1])
  }

  /** The id and the name are each the last that is not empty, and empty only if all are. */
  lemma {:induction false} LastOnesCount(fragments: seq<Fragment>)
    ensures LastId(fragments) == "" <==> forall k :: 0 <= k < |fragments| ==> fragments[k].id == ""
    ensures LastName(fragments) == "" <==> forall k :: 0 <= k < |fragments| ==> fragments[k].name == ""
    ensures LastId(fragments) == "" || exists k :: IsLastId(fragments, k)
    ensures LastName(fragments) == "" || exists k :: IsLastName(fragments, k)
  {
    if |fragments| > 0 {
      var n := |fragments| - 1;
      var before := fragments[..n];
      LastOnesCount(before);
      if |fragments[n].id| > 0 {
        assert IsLastId(fragments, n);
      } else if k :| IsLastId(before, k) {
        assert IsLastId(fragments, k);
      }
      if |fragments[n].name| > 0 {
        assert IsLastName(fragments, n);
      } else if k :| IsLastName(before, k) {
        assert IsLastName(fragments, k);
      }
      assert forall k :: 0 <= k < n ==> before[k] == fragments[k];
    }
  }

  ghost predicate IsLastId(fragments: seq<Fragment>, k: nat) {
    && k < |fragments| && fragments[k].id == LastId(fragments) != ""
    && forall j :: k < j < |fragments| ==> fragments[j].id == ""
  }

  ghost predicate IsLastName(fragments: seq<Fragment>, k: nat) {
    && k < |fragments| && fragments[k].name == LastName(fragments) != ""
    && forall j :: k < j < |fragments| ==> fragments[j].name == ""
  }

  function AllArguments(fragments: seq<Fragment>): string {
    if |fragments| == 0 then "" else AllArguments(fragments[..|fragments| - 1]) + fragments[|fragments| - 1].arguments
  }

  function CallOf(fragments: seq<Fragment>): Call {
    Call(LastId(fragments), LastName(fragments), AllArguments(fragments))
  }

  ghost predicate IsAssembledAt(pending: map<int, Call>, fragments: seq<Fragment>, i: int) {
    && (i in pending <==> |Only(fragments, i)| > 0)
    && (i in pending ==> pending[i] == CallOf(Only(fragments, i)))
  }

  /** The dictionary holds what the fragments so far come to. */
  ghost predicate IsAssembled(pending: map<int, Call>, fragments: seq<Fragment>) {
    forall i :: IsAssembledAt(pending, fragments, i)
  }

  // ----- Order of emission

  /** The number put in its place among increasing ones, unless it is there. */
  function InsertSorted(x: int, s: seq<int>): (r: seq<int>)
    ensures |r| > 0
  {
    if |s| == 0 || x < s[0] then [x] + s
    else if x == s[0] then s
    else [s[0]] + InsertSorted(x, s[1..])
  }

  function Sorted(keys: seq<int>): seq<int> {
    if |keys| == 0 then [] else InsertSorted(keys[|keys| - 1], Sorted(keys[..|keys| - 1]))
  }

  ghost predicate IsIncreasing(s: seq<int>) {
    forall i, j :: 0 <= i < j < |s| ==> s[i] < s[j]
  }

  lemma {:induction false} InsertSortedKeeps(x: int, s: seq<int>)
    requires IsIncreasing(s)
    ensures IsIncreasing(InsertSorted(x, s))
    ensures forall y :: y in InsertSorted(x, s) <==> y == x || y in s
  {
    if |s| > 0 && x > s[0] {
      var rest := InsertSorted(x, s[1..]);
      InsertSortedKeeps(x, s[1..]);
      forall i, j | 0 <= i < j < |rest| + 1 ensures ([s[0]] + rest)[i] < ([s[0]] + rest)[j] {
        assert rest[j - 1] in rest;
      }
      assert s == [s[0]] + s[1..];
    }
  }

  lemma {:induction false} InsertSortedAgain(s: seq<int>, i: nat)
    requires IsIncreasing(s) && i < |s|
    ensures InsertSorted(s[i], s) == s
  {
    if i > 0 {
      assert s[0] < s[i] == s[1..][i - 1];
      InsertSortedAgain(s[1..], i - 1);
      assert s == [s[0]] + s[1..];
    }
  }

  lemma {:induction false} SortedIsIncreasing(keys: seq<int>)
    ensures IsIncreasing(Sorted(keys)) && forall x :: x in Sorted(keys) <==> x in keys
  {
    if |keys| > 0 {
      var before, x := keys[..|keys| - 1], keys[|keys| - 1];
      SortedIsIncreasing(before);
      InsertSortedKeeps(x, Sorted(before));
      assert keys == before + [x];
    }
  }

  lemma HeadIsIn(s: seq<int>)
    ensures |s| > 0 ==> s[0] in s
  {
  }

  lemma {:induction false} IncreasingIsUnique(a: seq<int>, b: seq<int>)
    requires IsIncreasing(a) && IsIncreasing(b) && forall x :: x in a <==> x in b
    ensures a == b
  {
    if |a| == 0 {
      HeadIsIn(b);
    } else {
      assert a[0] in a && a[0] in b;
      assert b[0] in b && b[0] in a;
      assert a[0] == b[0];
      forall x ensures x in a[1..] <==> x in b[1..] {
        assert x in a[1..] <==> x in a && x != a[0];
        assert x in b[1..] <==> x in b && x != b[0];
      }
      IncreasingIsUnique(a[1..], b[1..]);
      assert a == [a[0]] + a[1..] && b == [b[0]] + b[1..];
    }
  }

  /** The indices that occur, increasing. */
  function Indices(fragments: seq<Fragment>): seq<int> {
    if |fragments| == 0 then []
    else
      var before, f := Indices(fragments[..|fragments| - 1]), fragments[|fragments| - 1];
      if f.index.None? then before else InsertSorted(f.index.value, before)
  }

  /** The calls that the fragments make, by increasing index. */
  function Calls(fragments: seq<Fragment>): seq<Call> {
    var keys := Indices(fragments);
    seq(|keys|, k requires 0 <= k < |keys| => CallOf(Only(fragments, keys[k])))
  }

  predicate Finishes(finish: Finish, held: seq<Fragment>) {
    finish.ToolCalls? || (finish.Stop? && |Indices(held)| > 0)
  }

  /** What a stream emits when `held` came before it. */
  function Emitted(held: seq<Fragment>, chunks: seq<Chunk>): seq<Call>
    decreases |chunks|
  {
    if |chunks| == 0 then []
    else
      var all := held + chunks[0].fragments;
      if Finishes(chunks[0].finish, all) then Calls(all) + Emitted([], chunks[1..]) else Emitted(all, chunks[1..])
  }

  // ----- The loop

  lemma OnlySnoc(fragments: seq<Fragment>, f: Fragment, i: int)
    ensures Only(fragments + [f], i) == Only(fragments, i) + if f.index == Some(i) then [f] else []
  {
    assert (fragments + [f])[..|fragments|] == fragments;
  }

  lemma IndicesSnoc(fragments: seq<Fragment>, f: Fragment)
    ensures Indices(fragments + [f]) ==
            if f.index.None? then Indices(fragments) else InsertSorted(f.index.value, Indices(fragments))
  {
    assert (fragments + [f])[..|fragments|] == fragments;
  }

  /** The indices are those that have fragments. */
  lemma {:induction false} IndicesAreThoseWithFragments(fragments: seq<Fragment>)
    ensures IsIncreasing(Indices(fragments))
    ensures forall i :: i in Indices(fragments) <==> |Only(fragments, i)| > 0
  {
    if |fragments| > 0 {
      var before, f := fragments[..|fragments| - 1], fragments[|fragments| - 1];
      IndicesAreThoseWithFragments(before);
      if f.index.Some? {
        InsertSortedKeeps(f.index.value, Indices(before));
      }
    }
  }

  lemma CallOfSnoc(fragments: seq<Fragment>, f: Fragment)
    ensures CallOf(fragments + [f]) ==
            Call(if |f.id| > 0 then f.id else LastId(fragments), if |f.name| > 0 then f.name else LastName(fragments),
                 AllArguments(fragments) + f.arguments)
  {
    assert (fragments + [f])[..|fragments|] == fragments;
  }

  /** What one fragment does to the entry of its index. */
  function Grown(entry: Call, f: Fragment): Call {
    Call(if |f.id| > 0 then f.id else entry.id, if |f.name| > 0 then f.name else entry.name,
         entry.arguments + f.arguments)
  }

  lemma GrownIsCallOf(fragments: seq<Fragment>, f: Fragment)
    ensures CallOf(fragments + [f]) == Grown(CallOf(fragments), f)
  {
    CallOfSnoc(fragments, f);
  }

  lemma AssembledSnoc(pending: map<int, Call>, pending': map<int, Call>, fragments: seq<Fragment>, f: Fragment)
    requires IsAssembled(pending, fragments) && f.index.Some?
    requires var i := f.index.value; pending' == pending[i := Grown(if i in pending then pending[i] else CallOf([]), f)]
    ensures IsAssembled(pending', fragments + [f])
  {
    forall i ensures IsAssembledAt(pending', fragments + [f], i) {
      assert IsAssembledAt(pending, fragments, i);
      OnlySnoc(fragments, f, i);
      if f.index == Some(i) {
        GrownIsCallOf(Only(fragments, i), f);
      } else {
        assert Only(fragments, i) + [] == Only(fragments, i);
      }
    }
  }

  lemma SkippedSnoc(pending: map<int, Call>, fragments: seq<Fragment>, f: Fragment)
    requires IsAssembled(pending, fragments) && f.index.None?
    ensures IsAssembled(pending, fragments + [f])
  {
    forall i ensures IsAssembledAt(pending, fragments + [f], i) {
      assert IsAssembledAt(pending, fragments, i);
      OnlySnoc(fragments, f, i);
      assert Only(fragments, i) + [] == Only(fragments, i);
    }
  }

  /** The keys of the dictionary, in the order in which they came. */
  ghost predicate AreKeys(keys: seq<int>, pending: map<int, Call>, fragments: seq<Fragment>) {
    (forall i :: i in keys <==> i in pending) && Sorted(keys) == Indices(fragments)
  }

  lemma KeysSnoc(keys: seq<int>, pending: map<int, Call>, fragments: seq<Fragment>, f: Fragment, idx: int)
    requires IsAssembled(pending, fragments) && AreKeys(keys, pending, fragments) && f.index == Some(idx)
    ensures idx in pending ==> Sorted(keys) == Indices(fragments + [f])
    ensures idx !in pending ==> Sorted(keys + [idx]) == Indices(fragments + [f])
  {
    IndicesSnoc(fragments, f);
    if idx in pending {
      IndicesAreThoseWithFragments(fragments);
      assert IsAssembledAt(pending, fragments, idx);
      var i :| 0 <= i < |Indices(fragments)| && Indices(fragments)[i] == idx;
      InsertSortedAgain(Indices(fragments), i);
    } else {
      assert (keys + [idx])[..|keys|] == keys;
    }
  }

  /** The fragment loop: one dictionary entry per index, updated in place. */
  method Accumulate(keys: seq<int>, pending: map<int, Call>, fragments: seq<Fragment>, ghost held: seq<Fragment>)
    returns (keys': seq<int>, pending': map<int, Call>)
    requires IsAssembled(pending, held) && AreKeys(keys, pending, held)
    ensures IsAssembled(pending', held + fragments) && AreKeys(keys', pending', held + fragments)
  {
    keys', pending' := keys, pending;
    assert held + fragments[..0] == held;
    for k := 0 to |fragments|
      invariant IsAssembled(pending', held + fragments[..k]) && AreKeys(keys', pending', held + fragments[..k])
    {
      ghost var before := held + fragments[..k];
      assert held + fragments[..k + 1] == before + [fragments[k]];
      keys', pending' := AccumulateOne(keys', pending', fragments[k], before);
    }
    assert fragments[..|fragments|] == fragments;
  }

  method AccumulateOne(keys: seq<int>, pending: map<int, Call>, tc: Fragment, ghost before: seq<Fragment>)
    returns (keys': seq<int>, pending': map<int, Call>)
    requires IsAssembled(pending, before) && AreKeys(keys, pending, before)
    ensures IsAssembled(pending', before + [tc]) && AreKeys(keys', pending', before + [tc])
  {
    if tc.index.None? {
      SkippedSnoc(pending, before, tc);
      IndicesSnoc(before, tc);
      return keys, pending;
    }
    KeysSnoc(keys, pending, before, tc, tc.index.value);
    keys', pending' := AddFragment(keys, pending, tc, tc.index.value);
    AssembledSnoc(pending, pending', before, tc);
  }

  method AddFragment(keys: seq<int>, pending: map<int, Call>, tc: Fragment, idx: int)
    returns (keys': seq<int>, pending': map<int, Call>)
    ensures keys' == if idx in pending then keys else keys + [idx]
    ensures pending' == pending[idx := Grown(if idx in pending then pending[idx] else CallOf([]), tc)]
  {
    keys', pending' := keys, pending;
    if idx !in pending' {
      keys', pending' := keys' + [idx], pending'[idx := Call(tc.id, "", "")];
    }
    var entry := pending'[idx];
    if |tc.id| > 0 {
      entry := entry.(id := tc.id);
    }
    if |tc.name| > 0 {
      entry := entry.(name := tc.name);
    }
    if |tc.arguments| > 0 {
      entry := entry.(arguments := entry.arguments + tc.arguments);
    } else {
      assert entry.arguments + tc.arguments == entry.arguments;
    }
    pending' := pending'[idx := entry];
  }

  /** The chunk loop of `stream`, as far as it concerns tool calls. */
  method Stream(chunks: seq<Chunk>) returns (calls: seq<Call>)
    ensures calls == Emitted([], chunks)
  {
    calls := [];
    var keys: seq<int>, pending: map<int, Call> := [], map[];
    ghost var held: seq<Fragment> := [];
    for n := 0 to |chunks|
      invariant IsAssembled(pending, held) && AreKeys(keys, pending, held)
      invariant Emitted([], chunks) == calls + Emitted(held, chunks[n..])
    {
      var chunk := chunks[n];
      assert chunks[n..][0] == chunk && chunks[n..][1..] == chunks[n + 1..];
      keys, pending := Accumulate(keys, pending, chunk.fragments, held);
      held := held + chunk.fragments;
      assert |keys| > 0 <==> |Sorted(keys)| > 0;
      if chunk.finish.ToolCalls? || (chunk.finish.Stop? && |keys| > 0) {
        var emitted := Emit(keys, pending, held);
        assert calls + (emitted + Emitted([], chunks[n + 1..])) == (calls + emitted) + Emitted([], chunks[n + 1..]);
        calls := calls + emitted;
        keys, pending := [], map[];
        held := [];
      }
    }
    assert calls + [] == calls;
  }

  method Emit(keys: seq<int>, pending: map<int, Call>, ghost held: seq<Fragment>) returns (calls: seq<Call>)
    requires IsAssembled(pending, held) && AreKeys(keys, pending, held)
    ensures calls == Calls(held)
  {
    var sorted := Sorted(keys);
    SortedIsIncreasing(keys);
    calls := [];
    for k := 0 to |sorted|
      invariant calls == Calls(held)[..k]
    {
      assert sorted[k] in sorted && IsAssembledAt(pending, held, sorted[k]);
      calls := calls + [pending[sorted[k]]];
    }
  }

  // ----- How the fragments were cut into chunks does not matter

  function AllFragments(chunks: seq<Chunk>): seq<Fragment> {
    if |chunks| == 0 then [] else chunks[0].fragments + AllFragments(chunks[1..])
  }

  /** The last chunk says that the calls are complete, and none before it does. */
  ghost predicate FinishesOnce(chunks: seq<Chunk>) {
    && |chunks| > 0 && (chunks[|chunks| - 1].finish.ToolCalls? || chunks[|chunks| - 1].finish.Stop?)
    && forall n :: 0 <= n < |chunks| - 1 ==> !chunks[n].finish.ToolCalls? && !chunks[n].finish.Stop?
  }

  lemma {:induction false} EmittedAtOnce(held: seq<Fragment>, chunks: seq<Chunk>)
    requires FinishesOnce(chunks)
    ensures Emitted(held, chunks) == Calls(held + AllFragments(chunks))
    decreases |chunks|
  {
    var all := held + chunks[0].fragments;
    if |chunks| == 1 {
      assert chunks[1..] == [] && AllFragments(chunks) == chunks[0].fragments + [] == chunks[0].fragments;
      assert Calls(all) + [] == Calls(all);
      if |Indices(all)| == 0 {
        assert Calls(all) == [];
      }
    } else {
      EmittedAtOnce(all, chunks[1..]);
      assert all + AllFragments(chunks[1..]) == held + AllFragments(chunks);
    }
  }

  lemma EmittedFromStart(chunks: seq<Chunk>)
    requires FinishesOnce(chunks)
    ensures Emitted([], chunks) == Calls(AllFragments(chunks))
  {
    EmittedAtOnce([], chunks);
    assert [] + AllFragments(chunks) == AllFragments(chunks);
  }

  ghost predicate SameByIndex(a: seq<Fragment>, b: seq<Fragment>) {
    forall i :: Only(a, i) == Only(b, i)
  }

  lemma SameIndices(a: seq<Fragment>, b: seq<Fragment>)
    requires SameByIndex(a, b)
    ensures Indices(a) == Indices(b)
  {
    IndicesAreThoseWithFragments(a);
    IndicesAreThoseWithFragments(b);
    forall i ensures i in Indices(a) <==> i in Indices(b) {
      assert Only(a, i) == Only(b, i);
    }
    IncreasingIsUnique(Indices(a), Indices(b));
  }

  lemma SameCalls(a: seq<Fragment>, b: seq<Fragment>)
    requires SameByIndex(a, b) && Indices(a) == Indices(b)
    ensures Calls(a) == Calls(b)
  {
    var keys := Indices(a);
    forall k | 0 <= k < |keys| ensures Calls(a)[k] == Calls(b)[k] {
      assert Only(a, keys[k]) == Only(b, keys[k]);
    }
  }

  /**
   * Two streams that carry the same fragments for each index, in whatever interleaving and chunks, emit the same calls.
   */
  lemma InterleavingDoesNotMatter(a: seq<Chunk>, b: seq<Chunk>)
    requires FinishesOnce(a) && FinishesOnce(b) && SameByIndex(AllFragments(a), AllFragments(b))
    ensures Emitted([], a) == Emitted([], b)
  {
    EmittedFromStart(a);
    EmittedFromStart(b);
    SameIndices(AllFragments(a), AllFragments(b));
    SameCalls(AllFragments(a), AllFragments(b));
  }

  /** Each index that occurs gives one call, in increasing order, made of exactly its own fragments. */
  lemma CallsAreOnePerIndex(chunks: seq<Chunk>) returns (keys: seq<int>)
    requires FinishesOnce(chunks)
    ensures |keys| == |Emitted([], chunks)|
    ensures forall i, j :: 0 <= i < j < |keys| ==> keys[i] < keys[j]
    ensures forall x :: x in keys <==> |Only(AllFragments(chunks), x)| > 0
    ensures forall k :: 0 <= k < |keys| ==> Emitted([], chunks)[k] == CallOf(Only(AllFragments(chunks), keys[k]))
  {
    var all := AllFragments(chunks);
    EmittedFromStart(chunks);
    keys := Indices(all);
    IndicesAreThoseWithFragments(all);
  }

  /**
   * Chunks that do not finish emit nothing: a stream that ends for another reason emits none of the calls it was
   * carrying.
   */
  lemma {:induction false} UnfinishedCallsAreLost(held: seq<Fragment>, chunks: seq<Chunk>)
    requires forall n :: 0 <= n < |chunks| ==> !chunks[n].finish.ToolCalls? && !chunks[n].finish.Stop?
    ensures Emitted(held, chunks) == []
    decreases |chunks|
  {
    if |chunks| > 0 {
      UnfinishedCallsAreLost(held + chunks[0].fragments, chunks[1..]);
    }
  }

  // ----- What any stream emits, and what it loses

  predicate IsFinishing(chunk: Chunk) {
    chunk.finish.ToolCalls? || chunk.finish.Stop?
  }

  lemma {:induction false} OnlyOfBoth(a: seq<Fragment>, b: seq<Fragment>, i: int)
    ensures Only(a + b, i) == Only(a, i) + Only(b, i)
  {
    if |b| == 0 {
      assert a + b == a;
    } else {
      OnlyOfBoth(a, b[..|b| - 1], i);
      assert (a + b)[..|a + b| - 1] == a + b[..|b| - 1];
    }
  }

  lemma SameWithMore(a: seq<Fragment>, b: seq<Fragment>, more: seq<Fragment>)
    requires SameByIndex(a, b)
    ensures SameByIndex(a + more, b + more)
  {
    forall i ensures Only(a + more, i) == Only(b + more, i) {
      OnlyOfBoth(a, more, i);
      OnlyOfBoth(b, more, i);
      assert Only(a, i) == Only(b, i);
    }
  }

  /** Of what is held only the fragments with an index matter. */
  lemma {:induction false} SameHeldSameCalls(a: seq<Fragment>, b: seq<Fragment>, chunks: seq<Chunk>)
    requires SameByIndex(a, b)
    ensures Emitted(a, chunks) == Emitted(b, chunks)
    decreases |chunks|
  {
    if |chunks| > 0 {
      var a', b' := a + chunks[0].fragments, b + chunks[0].fragments;
      SameWithMore(a, b, chunks[0].fragments);
      SameIndices(a', b');
      SameCalls(a', b');
      SameHeldSameCalls(a', b', chunks[1..]);
    }
  }

  lemma NoIndexIsLikeNothing(held: seq<Fragment>)
    requires |Indices(held)| == 0
    ensures SameByIndex(held, [])
  {
    IndicesAreThoseWithFragments(held);
    forall i ensures Only(held, i) == Only([], i) {
      assert i !in Indices(held);
    }
  }

  /** A chunk that finishes ends what came before it: no call has fragments on both sides of it. */
  lemma {:induction false} EmittedInParts(held: seq<Fragment>, a: seq<Chunk>, b: seq<Chunk>)
    requires |a| > 0 && IsFinishing(a[|a| - 1])
    ensures Emitted(held, a + b) == Emitted(held, a) + Emitted([], b)
    decreases |a|
  {
    var all := held + a[0].fragments;
    assert (a + b)[0] == a[0] && (a + b)[1..] == a[1..] + b;
    if |a| > 1 {
      EmittedInParts(if Finishes(a[0].finish, all) then [] else all, a[1..], b);
      assert Calls(all) + Emitted([], a[1..]) + Emitted([], b) == Calls(all) + (Emitted([], a[1..]) + Emitted([], b));
    } else {
      assert a[1..] == [] && a[1..] + b == b && Calls(all) + [] == Calls(all);
      if !Finishes(a[0].finish, all) {
        NoIndexIsLikeNothing(all);
        SameHeldSameCalls(all, [], b);
      }
    }
  }

  /** Each stretch of chunks up to the next one that finishes emits the calls of its own fragments. */
  lemma EachStretchEmitsItsCalls(before: seq<Chunk>, stretch: seq<Chunk>)
    requires |before| == 0 || IsFinishing(before[|before| - 1])
    requires FinishesOnce(stretch)
    ensures Emitted([], before + stretch) == Emitted([], before) + Calls(AllFragments(stretch))
  {
    EmittedFromStart(stretch);
    if |before| == 0 {
      assert before + stretch == stretch;
    } else {
      EmittedInParts([], before, stretch);
    }
  }

  /** How many chunks there are up to the last one that finishes. */
  function EndOf(chunks: seq<Chunk>): (n: nat)
    ensures n <= |chunks| && (n > 0 ==> IsFinishing(chunks[n - 1]))
    ensures forall k :: n <= k < |chunks| ==> !IsFinishing(chunks[k])
  {
    if |chunks| == 0 || IsFinishing(chunks[|chunks| - 1]) then |chunks| else EndOf(chunks[..|chunks| - 1])
  }

  /** The stream with one more chunk that finishes, so that all calls it carries are emitted. */
  function Completed(chunks: seq<Chunk>): seq<Chunk> {
    chunks + [Chunk([], ToolCalls)]
  }

  lemma LostBehind(before: seq<Chunk>, behind: seq<Chunk>)
    requires |before| == 0 || IsFinishing(before[|before| - 1])
    requires forall k :: 0 <= k < |behind| ==> !IsFinishing(behind[k])
    ensures Emitted([], before + behind) == Emitted([], before)
    ensures Emitted([], Completed(before + behind)) == Emitted([], before) + Calls(AllFragments(behind))
  {
    UnfinishedCallsAreLost([], behind);
    if |before| == 0 {
      assert before + behind == behind;
    } else {
      EmittedInParts([], before, behind);
    }
    AllFragmentsOfCompleted(behind);
    EachStretchEmitsItsCalls(before, Completed(behind));
    assert Completed(before + behind) == before + Completed(behind);
  }

  /** For every stream: the calls made by what comes after the last finishing chunk are lost, and no others. */
  lemma CallsAfterEndAreLost(chunks: seq<Chunk>)
    ensures var n := EndOf(chunks);
            && Emitted([], chunks) == Emitted([], chunks[..n])
            && Emitted([], Completed(chunks)) == Emitted([], chunks) + Calls(AllFragments(chunks[n..]))
  {
    var n := EndOf(chunks);
    LostBehind(chunks[..n], chunks[n..]);
    assert chunks == chunks[..n] + chunks[n..];
  }

  lemma {:induction false} AllFragmentsOfCompleted(chunks: seq<Chunk>)
    ensures AllFragments(Completed(chunks)) == AllFragments(chunks)
  {
    var whole := Completed(chunks);
    if |chunks| == 0 {
      assert whole[1..] == [];
    } else {
      AllFragmentsOfCompleted(chunks[1..]);
      assert whole[1..] == Completed(chunks[1..]);
    }
  }

  lemma {:induction false} NoIndicesIff(fragments: seq<Fragment>)
    ensures |Indices(fragments)| == 0 <==> forall k :: 0 <= k < |fragments| ==> fragments[k].index.None?
  {
    if |fragments| > 0 {
      NoIndicesIff(fragments[..|fragments| - 1]);
    }
  }

  /** No call is lost exactly when no fragment with an index comes after the last chunk that finishes. */
  lemma NoneIsLostIff(chunks: seq<Chunk>)
    ensures var after := AllFragments(chunks[EndOf(chunks)..]);
            Emitted([], chunks) == Emitted([], Completed(chunks)) <==>
              forall k :: 0 <= k < |after| ==> after[k].index.None?
  {
    CallsAfterEndAreLost(chunks);
    NoIndicesIff(AllFragments(chunks[EndOf(chunks)..]));
  }

  // ----- Arguments

  lemma {:induction false} JoinedSnoc(parts: seq<string>, last: string)
    ensures Join(parts + [last], "") == Join(parts, "") + last
  {
    if |parts| > 0 {
      JoinedSnoc(parts[1..], last);
      assert (parts + [last])[1..] == parts[1..] + [last];
      var first, rest := parts[0] + "", Join(parts[1..], "");
      assert first + (rest + last) == (first + rest) + last;
      assert |parts| == 1 ==> parts[1..] == [];
    }
  }

  function ArgumentsOf(fragments: seq<Fragment>): seq<string> {
    seq(|fragments|, k requires 0 <= k < |fragments| => fragments[k].arguments)
  }

  /** The arguments of a call are those of its fragments put together in the order in which they came. */
  lemma {:induction false} ArgumentsAreJoined(fragments: seq<Fragment>)
    ensures CallOf(fragments).arguments == Join(ArgumentsOf(fragments), "")
  {
    if |fragments| > 0 {
      var n := |fragments| - 1;
      ArgumentsAreJoined(fragments[..n]);
      JoinedSnoc(ArgumentsOf(fragments[..n]), fragments[n].arguments);
      assert ArgumentsOf(fragments) == ArgumentsOf(fragments[..n]) + [fragments[n].arguments];
    }
  }

  /** `at` says where the fragments of an index stand among all. */
  ghost predicate AreAt(fragments: seq<Fragment>, index: int, own: seq<Fragment>, at: seq<nat>) {
    && |at| == |own| && (forall k :: 0 <= k < |at| ==> at[k] < |fragments| && own[k] == fragments[at[k]])
    && (forall j, k :: 0 <= j < k < |at| ==> at[j] < at[k])
    && (forall n :: 0 <= n < |fragments| ==> (n in at <==> fragments[n].index == Some(index)))
  }

  /** They are exactly those that carry the index, in order. */
  lemma {:induction false} OwnFragments(fragments: seq<Fragment>, index: int) returns (at: seq<nat>)
    ensures AreAt(fragments, index, Only(fragments, index), at)
  {
    at := [];
    if |fragments| > 0 {
      var n := |fragments| - 1;
      var before := OwnFragments(fragments[..n], index);
      at := if fragments[n].index == Some(index) then before + [n] else before;
      OneFragmentMore(fragments, index, Only(fragments[..n], index), before);
      assert Only(fragments[..n], index) + [] == Only(fragments[..n], index);
    }
  }

  lemma OneFragmentMore(fragments: seq<Fragment>, index: int, own: seq<Fragment>, at: seq<nat>)
    requires |fragments| > 0 && AreAt(fragments[..|fragments| - 1], index, own, at)
    ensures var n := |fragments| - 1;
            if fragments[n].index == Some(index) then AreAt(fragments, index, own + [fragments[n]], at + [n])
            else AreAt(fragments, index, own, at)
  {
    var n := |fragments| - 1;
    var before, more := fragments[..n], at + [n];
    forall k | 0 <= k < |fragments| ensures k in more <==> k in at || k == n {
      assert more[|at|] == n;
    }
    forall k | 0 <= k < n ensures k in at <==> fragments[k].index == Some(index) {
      assert before[k] == fragments[k];
    }
  }
}
