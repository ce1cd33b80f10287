/** Merging configuration layers: nested mappings recurse, everything else is replaced by the higher layer. */
module ConfigMerge {

  /** Parsed YAML: a mapping, or anything else as one opaque leaf. */
  datatype Value = Leaf(text: string) | Mapping(entries: map<string, Value>)

  function DeepMerge(low: Value, high: Value): Value
    decreases high
  {
    if low.Leaf? || high.Leaf? then high
    else
      Mapping(map k | k in low.entries.Keys + high.entries.Keys ::
        if k in high.entries then
          if k in low.entries then DeepMerge(low.entries[k], high.entries[k]) else high.entries[k]
        else low.entries[k])
  }

  /** `deep_merge`: a copy of the lower mapping, into which the entries of the higher one are put one by one. */
  method DeepMergeByEntries(low: Value, high: Value) returns (merged: Value)
    ensures merged == DeepMerge(low, high)
    decreases high
  {
    if low.Leaf? || high.Leaf? {
      return high;
    }
    var result := low.entries;
    var keys := high.entries.Keys;
    ghost var done: set<string> := {};
    while keys != {}
      invariant done + keys == high.entries.Keys && done !! keys
      invariant result.Keys == low.entries.Keys + done
      invariant forall k :: k in result ==>
        result[k] == if k in done then DeepMerge(low, high).entries[k] else low.entries[k]
      decreases keys
    {
      var key :| key in keys;
      var value := high.entries[key];
      if key in result {
        var inner := DeepMergeByEntries(result[key], value);
        result := result[key := inner];
      } else {
        result := result[key := value];
      }
      keys, done := keys - {key}, done + {key};
    }
    assert done == high.entries.Keys;
    assert result == DeepMerge(low, high).entries;
    return Mapping(result);
  }

  // ----- What is found at a path

  datatype Found = Nothing | Here(value: Value)

  function At(v: Value, path: seq<string>): Found
    decreases |path|
  {
    if |path| == 0 then Here(v)
    else if v.Mapping? && path[0] in v.entries then At(v.entries[path[0]], path[1..])
    else Nothing
  }

  predicate IsLeafAt(v: Value, path: seq<string>) {
    At(v, path).Here? && At(v, path).value.Leaf?
  }

  predicate IsMappingAt(v: Value, path: seq<string>) {
    At(v, path).Here? && At(v, path).value.Mapping?
  }

  /** `v` hides whatever a lower layer has at `path`: a leaf on the way there, or a mapping in its place. */
  ghost predicate Hides(v: Value, path: seq<string>) {
    IsMappingAt(v, path) || exists k :: 0 <= k < |path| && IsLeafAt(v, path[..k])
  }

  lemma HidesBelow(v: Value, path: seq<string>)
    requires |path| > 0
    ensures Hides(v, path) <==> v.Leaf? || (path[0] in v.entries && Hides(v.entries[path[0]], path[1..]))
  {
    if v.Leaf? {
      assert IsLeafAt(v, path[..0]);
    } else if path[0] in v.entries {
      var inner := v.entries[path[0]];
      forall k | 0 < k < |path| ensures IsLeafAt(v, path[..k]) <==> IsLeafAt(inner, path[1..][..k - 1]) {
        assert path[..k][1..] == path[1..][..k - 1];
      }
      if Hides(v, path) && !IsMappingAt(v, path) {
        var k :| 0 <= k < |path| && IsLeafAt(v, path[..k]);
        assert IsLeafAt(inner, path[1..][..k - 1]);
      }
      if Hides(inner, path[1..]) && !IsMappingAt(inner, path[1..]) {
        var k :| 0 <= k < |path[1..]| && IsLeafAt(inner, path[1..][..k]);
        assert path[1..][..k] == path[1..][..(k + 1) - 1];
        assert IsLeafAt(v, path[..k + 1]);
      }
    } else {
      forall k | 0 <= k < |path| ensures !IsLeafAt(v, path[..k]) {
        assert k > 0 ==> path[..k][0] == path[0];
      }
    }
  }

  /** A leaf of the merge is the higher layer's if it has one there, else the lower layer's unless it is hidden. */
  lemma {:induction false} MergedLeaf(low: Value, high: Value, path: seq<string>, leaf: Value)
    requires leaf.Leaf?
    ensures At(DeepMerge(low, high), path) == Here(leaf) <==>
            At(high, path) == Here(leaf) || (!IsLeafAt(high, path) && !Hides(high, path) && At(low, path) == Here(leaf))
    decreases |path|
  {
    if |path| > 0 {
      HidesBelow(high, path);
      if low.Mapping? && high.Mapping? {
        var k, rest := path[0], path[1..];
        if k in low.entries && k in high.entries {
          MergedLeaf(low.entries[k], high.entries[k], rest, leaf);
        }
      }
    }
  }

  // ----- A stack of layers

  /** The fold that `collect` performs for one file. */
  function MergeAll(layers: seq<Value>): Value
    requires |layers| > 0
  {
    if |layers| == 1 then layers[0]
    else DeepMerge(MergeAll(layers[..|layers| - 1]), layers[|layers| - 1])
  }

  /** Layer `i` gives the leaf at `path`, and no later layer replaces or hides it. */
  ghost predicate Wins(layers: seq<Value>, path: seq<string>, i: int, leaf: Value) {
    && 0 <= i < |layers|
    && At(layers[i], path) == Here(leaf)
    && forall j :: i < j < |layers| ==> !IsLeafAt(layers[j], path) && !Hides(layers[j], path)
  }

  /**
   * Each leaf of the merged configuration comes from the highest layer that defines it, unless a later layer hides it.
   */
  lemma {:induction false} HighestLayerWins(layers: seq<Value>, path: seq<string>, leaf: Value)
    requires |layers| > 0 && leaf.Leaf?
    ensures At(MergeAll(layers), path) == Here(leaf) <==> exists i :: Wins(layers, path, i, leaf)
    decreases |layers|
  {
    var n := |layers| - 1;
    if n == 0 {
      if At(layers[0], path) == Here(leaf) {
        assert Wins(layers, path, 0, leaf);
      }
    } else {
      var init, last := layers[..n], layers[n];
      HighestLayerWins(init, path, leaf);
      MergedLeaf(MergeAll(init), last, path, leaf);
      if At(MergeAll(layers), path) == Here(leaf) {
        if At(last, path) == Here(leaf) {
          assert Wins(layers, path, n, leaf);
        } else {
          var i :| Wins(init, path, i, leaf);
          WinnerStays(layers, path, i, leaf);
        }
      }
      if exists i :: Wins(layers, path, i, leaf) {
        var i :| Wins(layers, path, i, leaf);
        if i < n {
          WinnerBefore(layers, path, i, leaf);
        }
      }
    }
  }

  lemma WinnerStays(layers: seq<Value>, path: seq<string>, i: int, leaf: Value)
    requires |layers| > 1 && Wins(layers[..|layers| - 1], path, i, leaf)
    requires !IsLeafAt(layers[|layers| - 1], path) && !Hides(layers[|layers| - 1], path)
    ensures Wins(layers, path, i, leaf)
  {
    var init := layers[..|layers| - 1];
    forall j | i < j < |layers| ensures !IsLeafAt(layers[j], path) && !Hides(layers[j], path) {
      assert j < |init| ==> layers[j] == init[j];
    }
  }

  lemma WinnerBefore(layers: seq<Value>, path: seq<string>, i: int, leaf: Value)
    requires |layers| > 1 && Wins(layers, path, i, leaf) && i < |layers| - 1
    ensures Wins(layers[..|layers| - 1], path, i, leaf)
    ensures !IsLeafAt(layers[|layers| - 1], path) && !Hides(layers[|layers| - 1], path)
  {
  }

  /** One layer: the files found in it, by stem. */
  type Layer = seq<(string, Value)>

  /** What the layers contribute to one file, lowest first. */
  function Contributions(found: Layer, stem: string): seq<Value> {
    if |found| == 0 then []
    else
      Contributions(found[..|found| - 1], stem) +
      if found[|found| - 1].0 == stem then [found[|found| - 1].1] else []
  }

  function Flatten(layers: seq<Layer>): Layer {
    if |layers| == 0 then [] else Flatten(layers[..|layers| - 1]) + layers[|layers| - 1]
  }

  /** Every file that some layer has is present, and holds the fold of its contributions. */
  ghost predicate IsCollected(merged: map<string, Value>, found: Layer) {
    forall stem ::
      var parts := Contributions(found, stem);
      (stem in merged <==> |parts| > 0) && (|parts| > 0 ==> merged[stem] == MergeAll(parts))
  }

  /** `collect`, after the directories were scanned and the command line parsed. */
  method Collect(layers: seq<Layer>) returns (merged: map<string, Value>)
    ensures IsCollected(merged, Flatten(layers))
  {
    merged := map[];
    for i := 0 to |layers|
      invariant IsCollected(merged, Flatten(layers[..i]))
    {
      ghost var before := Flatten(layers[..i]);
      assert before + layers[i][..0] == before;
      for k := 0 to |layers[i]|
        invariant IsCollected(merged, before + layers[i][..k])
      {
        var (stem, raw) := layers[i][k];
        ghost var merged0 := merged;
        if stem in merged {
          var patched := DeepMergeByEntries(merged[stem], raw);
          merged := merged[stem := patched];
        } else {
          merged := merged[stem := raw];
        }
        CollectOne(merged0, merged, before + layers[i][..k], stem, raw);
        assert before + layers[i][..k + 1] == before + layers[i][..k] + [(stem, raw)];
      }
      assert before + layers[i][..|layers[i]|] == Flatten(layers[..i + 1]) by {
        assert layers[..i + 1][..i] == layers[..i] && layers[i][..|layers[i]|] == layers[i];
      }
    }
    assert layers[..|layers|] == layers;
  }

  lemma CollectOne(merged: map<string, Value>, merged': map<string, Value>, found: Layer, stem: string, raw: Value)
    requires IsCollected(merged, found)
    requires merged' == merged[stem := if stem in merged then DeepMerge(merged[stem], raw) else raw]
    ensures IsCollected(merged', found + [(stem, raw)])
  {
    var found' := found + [(stem, raw)];
    assert found'[..|found|] == found;
    forall other
      ensures var parts := Contributions(found', other);
              (other in merged' <==> |parts| > 0) && (|parts| > 0 ==> merged'[other] == MergeAll(parts))
    {
      var before, after := Contributions(found, other), Contributions(found', other);
      assert (other in merged <==> |before| > 0) && (|before| > 0 ==> merged[other] == MergeAll(before));
      if other == stem {
        assert after == before + [raw] && after[..|before|] == before;
      } else {
        assert after == before;
      }
    }
  }

  // ----- When the order of merging does not matter

  /** Merging `low` under `high` adds nothing: every entry of `low` is already there, at every depth. */
  predicate Covers(high: Value, low: Value)
    decreases high
  {
    low.Mapping? && high.Mapping? ==>
      forall k :: k in low.entries ==> k in high.entries && Covers(high.entries[k], low.entries[k])
  }

  lemma {:induction false} CoveredMergeIsHigh(low: Value, high: Value)
    ensures DeepMerge(low, high) == high <==> Covers(high, low)
    decreases high
  {
    if low.Mapping? && high.Mapping? {
      var merged := DeepMerge(low, high);
      forall k | k in low.entries && k in high.entries
        ensures DeepMerge(low.entries[k], high.entries[k]) == high.entries[k] <==>
                Covers(high.entries[k], low.entries[k])
      {
        CoveredMergeIsHigh(low.entries[k], high.entries[k]);
      }
      if Covers(high, low) {
        assert merged.entries == high.entries;
      }
      if merged == high {
        forall k | k in low.entries ensures k in high.entries && Covers(high.entries[k], low.entries[k]) {
          assert k in merged.entries;
        }
      }
    }
  }

  /** At `path` a leaf of the middle layer separates two mappings, and the lower one holds more than the upper. */
  ghost predicate Separates(low: Value, mid: Value, high: Value, path: seq<string>) {
    && IsMappingAt(low, path) && IsLeafAt(mid, path) && IsMappingAt(high, path)
    && !Covers(At(high, path).value, At(low, path).value)
  }

  lemma SeparatesBelow(low: Value, mid: Value, high: Value, path: seq<string>)
    requires low.Mapping? && mid.Mapping? && high.Mapping?
    ensures Separates(low, mid, high, path) <==>
            |path| > 0 && path[0] in low.entries && path[0] in mid.entries && path[0] in high.entries &&
            Separates(low.entries[path[0]], mid.entries[path[0]], high.entries[path[0]], path[1..])
  {
  }

  /** Merging three layers is associative exactly when no leaf of the middle one separates two mappings in that way. */
  lemma {:induction false} AssociativeIff(low: Value, mid: Value, high: Value)
    ensures DeepMerge(DeepMerge(low, mid), high) == DeepMerge(low, DeepMerge(mid, high)) <==>
            !exists path :: Separates(low, mid, high, path)
    decreases high
  {
    if low.Mapping? && mid.Mapping? && high.Mapping? {
      AssociativeMappings(low, mid, high);
    } else {
      CoveredMergeIsHigh(low, high);
      assert At(low, []) == Here(low) && At(mid, []) == Here(mid) && At(high, []) == Here(high);
      if low.Mapping? && mid.Leaf? && high.Mapping? {
        assert Separates(low, mid, high, []) <==> !Covers(high, low);
      }
      forall path ensures !Separates(low, mid, high, path) || (path == [] && mid.Leaf?) {
        if |path| > 0 && mid.Leaf? {
          assert At(mid, path) == Nothing;
        }
      }
    }
  }

  lemma {:induction false} AssociativeMappings(low: Value, mid: Value, high: Value)
    requires low.Mapping? && mid.Mapping? && high.Mapping?
    ensures DeepMerge(DeepMerge(low, mid), high) == DeepMerge(low, DeepMerge(mid, high)) <==>
            !exists path :: Separates(low, mid, high, path)
    decreases high, 0
  {
    var left, right := DeepMerge(DeepMerge(low, mid), high), DeepMerge(low, DeepMerge(mid, high));
    var shared := low.entries.Keys * mid.entries.Keys * high.entries.Keys;
    assert left.entries.Keys == right.entries.Keys;
    forall k | k in left.entries && k !in shared ensures left.entries[k] == right.entries[k] {
    }
    forall k | k in shared
      ensures left.entries[k] == right.entries[k] <==>
              !exists path :: Separates(low.entries[k], mid.entries[k], high.entries[k], path)
    {
      AssociativeIff(low.entries[k], mid.entries[k], high.entries[k]);
    }
    if exists path :: Separates(low, mid, high, path) {
      var path :| Separates(low, mid, high, path);
      SeparatesBelow(low, mid, high, path);
      assert path[0] in shared;
      assert left.entries[path[0]] != right.entries[path[0]];
    } else {
      forall k | k in left.entries ensures left.entries[k] == right.entries[k] {
        if k in shared && exists path :: Separates(low.entries[k], mid.entries[k], high.entries[k], path) {
          var path :| Separates(low.entries[k], mid.entries[k], high.entries[k], path);
          assert ([k] + path)[1..] == path;
          SeparatesBelow(low, mid, high, [k] + path);
        }
      }
      assert left.entries == right.entries;
    }
  }

  /** No path holds a mapping in one layer and a leaf in the other. */
  ghost predicate AgreeOnMappings(a: Value, b: Value) {
    forall path :: !(IsMappingAt(a, path) && IsLeafAt(b, path)) && !(IsLeafAt(a, path) && IsMappingAt(b, path))
  }

  /** Layers that agree on which paths are mappings can be merged in either order of association. */
  lemma AgreeingLayersAssociate(low: Value, mid: Value, high: Value)
    requires AgreeOnMappings(low, mid)
    ensures DeepMerge(DeepMerge(low, mid), high) == DeepMerge(low, DeepMerge(mid, high))
  {
    AssociativeIff(low, mid, high);
    forall path ensures !Separates(low, mid, high, path) {
      assert !(IsMappingAt(low, path) && IsLeafAt(mid, path));
    }
  }

  /** Without that agreement the two orders can differ. */
  lemma AssociationMatters()
    ensures var low, mid, high := Mapping(map["x" := Mapping(map["k" := Leaf("1")])]), Mapping(map["x" := Leaf("2")]),
                                  Mapping(map["x" := Mapping(map["j" := Leaf("3")])]);
            DeepMerge(DeepMerge(low, mid), high) != DeepMerge(low, DeepMerge(mid, high))
  {
    var low, mid, high := Mapping(map["x" := Mapping(map["k" := Leaf("1")])]), Mapping(map["x" := Leaf("2")]),
                          Mapping(map["x" := Mapping(map["j" := Leaf("3")])]);
    AssociativeIff(low, mid, high);
    var l, m, h := low.entries["x"], mid.entries["x"], high.entries["x"];
    assert "k" in l.entries && "k" !in h.entries;
    assert ["x"][1..] == [];
    assert At(low, ["x"]) == Here(l) && At(mid, ["x"]) == Here(m) && At(high, ["x"]) == Here(h);
    assert Separates(low, mid, high, ["x"]);
  }
}
