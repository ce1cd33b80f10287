/** The file in which the adapter keeps its session table between starts. */
module PeerSessions {
  import opened Text
  import opened Gateway

  /** The first bar separates peer and thread. */
  function EncodeKey(key: Key): string {
    match key.thread
    case NoThread => key.peer
    case InThread(id) => key.peer + "|" + id
  }

  /** `partition` at the first bar. */
  function DecodeKey(s: string): Key {
    var bar := Find(s, "|");
    if bar == -1 then Key(s, NoThread) else Key(s[..bar], InThread(s[bar + 1..]))
  }

  predicate HasBar(s: string) {
    '|' in s
  }

  lemma BarOccurs(s: string, k: int)
    ensures OccursAt(s, "|", k) <==> 0 <= k < |s| && s[k] == '|'
  {
    if 0 <= k < |s| {
      assert s[k..k + 1] == [s[k]];
    }
  }

  lemma FindBar(s: string)
    ensures var bar := Find(s, "|");
            if HasBar(s) then 0 <= bar < |s| && s[bar] == '|' && !HasBar(s[..bar]) else bar == -1
  {
    FindIsFirstOccurrence(s, "|");
    var bar := Find(s, "|");
    forall k ensures OccursAt(s, "|", k) <==> 0 <= k < |s| && s[k] == '|' {
      BarOccurs(s, k);
    }
    if HasBar(s) {
      var k :| 0 <= k < |s| && s[k] == '|';
      assert OccursAt(s, "|", k);
      assert forall j :: 0 <= j < bar ==> !OccursAt(s, "|", j);
    }
  }

  lemma FirstBar(before: string, after: string)
    requires !HasBar(before)
    ensures Find(before + "|" + after, "|") == |before|
  {
    var s := before + "|" + after;
    FindIsFirstOccurrence(s, "|");
    forall k ensures OccursAt(s, "|", k) <==> 0 <= k < |s| && s[k] == '|' {
      BarOccurs(s, k);
    }
    assert s[|before|] == '|';
    FirstOccurrenceIsUnique(s, "|", |before|, Find(s, "|"));
  }

  /** A decoded peer never holds a bar, and encoding it again gives the text back. */
  lemma DecodedKey(s: string)
    ensures !HasBar(DecodeKey(s).peer) && EncodeKey(DecodeKey(s)) == s
  {
    FindBar(s);
    var bar := Find(s, "|");
    if bar != -1 {
      assert s == s[..bar] + "|" + s[bar + 1..];
    }
  }

  /** A key comes back exactly when its peer id holds no bar. */
  lemma KeyRoundTrip(key: Key)
    ensures DecodeKey(EncodeKey(key)) == key <==> !HasBar(key.peer)
  {
    DecodedKey(EncodeKey(key));
    if !HasBar(key.peer) {
      var s := EncodeKey(key);
      FindBar(s);
      var bar := Find(s, "|");
      if key.thread.InThread? {
        assert s[|key.peer|] == '|' && HasBar(s);
        FirstBar(key.peer, key.thread.id);
      }
    }
  }

  /** The file holds every key of the table under its encoding; of keys with one encoding, one wins. */
  ghost predicate IsPersisted(table: map<Key, string>, file: map<string, string>) {
    && (forall key :: key in table ==> EncodeKey(key) in file)
    && (forall s :: s in file ==> exists key :: key in table && EncodeKey(key) == s && table[key] == file[s])
  }

  /** `_persist_peer_sessions`, writing the entries in any order. */
  method Persist(table: map<Key, string>) returns (file: map<string, string>)
    ensures IsPersisted(table, file)
  {
    file := map[];
    var keys := table.Keys;
    ghost var done: set<Key> := {};
    while keys != {}
      invariant done + keys == table.Keys
      invariant forall key :: key in done ==> EncodeKey(key) in file
      invariant forall s :: s in file ==> exists key :: key in table && EncodeKey(key) == s && table[key] == file[s]
      decreases keys
    {
      var key :| key in keys;
      ghost var before := file;
      file := file[EncodeKey(key) := table[key]];
      forall s | s in file ensures exists k :: k in table && EncodeKey(k) == s && table[k] == file[s] {
        if s == EncodeKey(key) {
          assert key in table && table[key] == file[s];
        } else {
          assert s in before;
        }
      }
      keys, done := keys - {key}, done + {key};
    }
  }

  ghost predicate IsLoaded(file: map<string, string>, table: map<Key, string>) {
    && (forall s :: s in file ==> DecodeKey(s) in table && table[DecodeKey(s)] == file[s])
    && (forall key :: key in table ==> EncodeKey(key) in file && DecodeKey(EncodeKey(key)) == key)
  }

  /** The entries of the names in `done` are in the table, and no others. */
  ghost predicate AreLoaded(file: map<string, string>, done: set<string>, table: map<Key, string>) {
    && (forall s :: s in done ==> s in file && DecodeKey(s) in table && table[DecodeKey(s)] == file[s])
    && (forall key :: key in table ==> EncodeKey(key) in done && DecodeKey(EncodeKey(key)) == key)
  }

  lemma LoadOne(file: map<string, string>, done: set<string>, table: map<Key, string>, s: string)
    requires AreLoaded(file, done, table) && s in file && s !in done
    ensures AreLoaded(file, done + {s}, table[DecodeKey(s) := file[s]])
  {
    DecodedKey(s);
    forall t | t in done ensures DecodeKey(t) != DecodeKey(s) {
      DecodedKey(t);
    }
  }

  /** `_load_peer_sessions` into an empty table. */
  method Load(file: map<string, string>) returns (table: map<Key, string>)
    ensures IsLoaded(file, table)
  {
    table := map[];
    var names := file.Keys;
    ghost var done: set<string> := {};
    while names != {}
      invariant done + names == file.Keys && done !! names && AreLoaded(file, done, table)
      decreases names
    {
      var s :| s in names;
      LoadOne(file, done, table, s);
      table := table[DecodeKey(s) := file[s]];
      names, done := names - {s}, done + {s};
    }
    assert done == file.Keys;
  }

  /** A table survives being written and read exactly when no peer id in it holds a bar. */
  lemma TableRoundTrip(table: map<Key, string>, file: map<string, string>, loaded: map<Key, string>)
    requires IsPersisted(table, file) && IsLoaded(file, loaded)
    ensures loaded == table <==> forall key :: key in table ==> !HasBar(key.peer)
  {
    if forall key :: key in table ==> !HasBar(key.peer) {
      ComesBack(table, file, loaded);
    }
    if loaded == table {
      forall key | key in table ensures !HasBar(key.peer) {
        DecodedKey(EncodeKey(key));
      }
    }
  }

  lemma ComesBack(table: map<Key, string>, file: map<string, string>, loaded: map<Key, string>)
    requires IsPersisted(table, file) && IsLoaded(file, loaded)
    requires forall key :: key in table ==> !HasBar(key.peer)
    ensures loaded == table
  {
    forall key ensures (key in table <==> key in loaded) && (key in table ==> loaded[key] == table[key]) {
      BothWays(table, file, loaded, key);
    }
    assert loaded.Keys == table.Keys;
  }

  lemma BothWays(table: map<Key, string>, file: map<string, string>, loaded: map<Key, string>, key: Key)
    requires IsPersisted(table, file) && IsLoaded(file, loaded)
    requires forall k :: k in table ==> !HasBar(k.peer)
    ensures key in table <==> key in loaded
    ensures key in table ==> loaded[key] == table[key]
  {
    if key in table {
      KeyRoundTrip(key);
      var k :| k in table && EncodeKey(k) == EncodeKey(key) && table[k] == file[EncodeKey(key)];
      KeyRoundTrip(k);
    }
    if key in loaded {
      var k :| k in table && EncodeKey(k) == EncodeKey(key) && table[k] == file[EncodeKey(key)];
      KeyRoundTrip(k);
    }
  }
}
