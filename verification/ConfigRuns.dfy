/**
 * Updates of configuration sections as steps. An update waits for the lock of its own section, reads the whole
 * file, replaces it, commits and notifies; between any two of these, other updates take steps of theirs.
 */
module ConfigRuns {
  import opened Options
  import opened ConfigSection

  datatype Phase =
    | Waiting
    | Writing                                       // holds the section's lock
    | HasRead(existing: map<string, ConfigMerge.Value>)  // and has read the file
    | HasReplaced                                   // and has written it
    | Notifying                                     // committed, without the lock
    | Over

  datatype Update = Update(key: Key, before: Fields, after: Fields, phase: Phase)

  /** What an update did; `id` says which one. */
  datatype Commit = Commit(id: int, key: Key, before: Fields, after: Fields)

  datatype State = State(
    schemas: map<Key, Schema>,
    initial: map<Key, Fields>,        // the value each section came with
    current: map<Key, Fields>,        // and the one it has in memory
    owners: seq<Key>,                 // the sections that were bound, one entry for each owner
    files: Files,
    locks: map<Key, int>,             // which update holds the lock of a section
    updates: map<int, Update>,
    commits: seq<Commit>,
    notified: seq<Commit>)

  datatype Step =
    | Bind(key: Key, schema: Schema, raw: map<string, ConfigMerge.Value>)
    | Get(key: Key, schema: Schema, raw: map<string, ConfigMerge.Value>)
    | Begin(id: int, key: Key, newValue: Fields)
    | Acquire(id: int)
    | Read(id: int)
    | Replace(id: int)
    | WriteFails(id: int)
    | CommitStep(id: int)
    | Notify(id: int)

  predicate At(s: State, id: int) {
    id in s.updates && s.updates[id].key in s.current
  }

  predicate MayShare(s: State, key: Key, schema: Schema, raw: map<string, ConfigMerge.Value>) {
    if key in s.current then key in s.schemas && s.schemas[key].id == schema.id else ValidateEntries(schema, raw).Some?
  }

  /** An update that fails validation never begins. */
  predicate Enabled(s: State, step: Step) {
    match step
    case Bind(key, schema, raw) => key !in s.owners && MayShare(s, key, schema, raw)
    case Get(key, schema, raw) => MayShare(s, key, schema, raw)
    case Begin(id, key, newValue) =>
      id !in s.updates && key in s.owners && key in s.current && key in s.schemas &&
      Validate(s.schemas[key], newValue).Some?
    case Acquire(id) => At(s, id) && s.updates[id].phase.Waiting? && s.updates[id].key !in s.locks
    case Read(id) => At(s, id) && s.updates[id].phase.Writing?
    case Replace(id) =>
      At(s, id) && s.updates[id].phase.HasRead? && s.updates[id].key in s.schemas &&
      Fits(s.schemas[s.updates[id].key], s.updates[id].after)
    case WriteFails(id) => At(s, id) && (s.updates[id].phase.Writing? || s.updates[id].phase.HasRead?)
    case CommitStep(id) => At(s, id) && s.updates[id].phase.HasReplaced?
    case Notify(id) => At(s, id) && s.updates[id].phase.Notifying?
  }

  function Goto(s: State, id: int, phase: Phase): State
    requires id in s.updates
  {
    s.(updates := s.updates[id := s.updates[id].(phase := phase)])
  }

  /** What a section comes with. */
  function Initial(schema: Schema, raw: map<string, ConfigMerge.Value>): (initial: Fields)
    ensures Fits(schema, initial)
  {
    var validated := ValidateEntries(schema, raw);
    if validated.Some? then validated.value else schema.defaults
  }

  function Create(s: State, key: Key, schema: Schema, initial: Fields): State {
    if key in s.current then s
    else
      s.(schemas := s.schemas[key := schema], initial := s.initial[key := initial],
        current := s.current[key := initial])
  }

  function Do(s: State, step: Step): State
    requires Enabled(s, step)
  {
    match step
    case Bind(key, schema, raw) => Create(s, key, schema, Initial(schema, raw)).(owners := s.owners + [key])
    case Get(key, schema, raw) => Create(s, key, schema, Initial(schema, raw))
    case Begin(id, key, newValue) =>
      var validated := Validate(s.schemas[key], newValue).value;
      s.(updates := s.updates[id := Update(key, validated, validated, Waiting)])
    case Acquire(id) =>
      var u := s.updates[id];
      s.(updates := s.updates[id := Update(u.key, s.current[u.key], u.after, Writing)], locks := s.locks[u.key := id])
    case Read(id) => Goto(s, id, HasRead(SectionsIn(s.files, s.updates[id].key.file)))
    case Replace(id) =>
      var u := s.updates[id];
      var patched := Patch(u.phase.existing, u.key.section, Dump(s.schemas[u.key], u.after));
      Goto(s, id, HasReplaced).(files := Replaced(s.files, u.key.file, patched))
    case WriteFails(id) => Goto(s, id, Over).(locks := s.locks - {s.updates[id].key})
    case CommitStep(id) =>
      var u := s.updates[id];
      Goto(s, id, Notifying).(current := s.current[u.key := u.after], locks := s.locks - {u.key},
                              commits := s.commits + [Commit(id, u.key, u.before, u.after)])
    case Notify(id) =>
      var u := s.updates[id];
      Goto(s, id, Over).(notified := s.notified + [Commit(id, u.key, u.before, u.after)])
  }

  /** While an update has read a file and not replaced it, no other one reads that file. */
  ghost predicate DoesNotOverlap(s: State, step: Step) {
    step.Read? && step.id in s.updates ==>
      forall other :: other in s.updates && other != step.id && s.updates[other].phase.HasRead? ==>
        s.updates[other].key.file != s.updates[step.id].key.file
  }

  ghost predicate IsRun(s: State, steps: seq<Step>)
    decreases |steps|
  {
    |steps| > 0 ==> Enabled(s, steps[0]) && IsRun(Do(s, steps[0]), steps[1..])
  }

  ghost predicate HasNoOverlap(s: State, steps: seq<Step>)
    requires IsRun(s, steps)
    decreases |steps|
  {
    |steps| > 0 ==> DoesNotOverlap(s, steps[0]) && HasNoOverlap(Do(s, steps[0]), steps[1..])
  }

  function Exec(s: State, steps: seq<Step>): State
    requires IsRun(s, steps)
    decreases |steps|
  {
    if |steps| == 0 then s else Exec(Do(s, steps[0]), steps[1..])
  }

  function Start(files: Files): State {
    State(map[], map[], map[], [], files, map[], map[], [], [])
  }

  // ----- What every step keeps

  predicate HoldsLock(phase: Phase) {
    phase.Writing? || phase.HasRead? || phase.HasReplaced?
  }

  /** The value a section has after the commits, with `initial` before the first. */
  function LastCommitted(commits: seq<Commit>, key: Key, initial: Fields): Fields {
    if |commits| == 0 then initial
    else if commits[|commits| - 1].key == key then commits[|commits| - 1].after
    else LastCommitted(commits[..|commits| - 1], key, initial)
  }

  /** Each commit starts from the value that the one before it on the same section left. */
  ghost predicate IsChain(commits: seq<Commit>, key: Key, initial: Fields) {
    |commits| > 0 ==>
      var last, before := commits[|commits| - 1], commits[..|commits| - 1];
      IsChain(before, key, initial) && (last.key == key ==> last.before == LastCommitted(before, key, initial))
  }

  predicate WasCommitted(commits: seq<Commit>, key: Key) {
    exists i :: 0 <= i < |commits| && commits[i].key == key
  }

  /** What the file should hold of a section: nothing new before its first update, and then the value last written. */
  ghost predicate StoredRightly(s: State, files: Files, key: Key) {
    if key in s.locks && s.locks[key] in s.updates && s.updates[s.locks[key]].phase.HasReplaced? then
      IsStored(s, key, s.updates[s.locks[key]].after)
    else if WasCommitted(s.commits, key) then
      key in s.current && IsStored(s, key, s.current[key])
    else StoredAt(s.files, key) == StoredAt(files, key)
  }

  ghost predicate IsStored(s: State, key: Key, value: Fields) {
    key in s.schemas && Fits(s.schemas[key], value) && StoredAt(s.files, key) == AsStored(s.schemas[key], value)
  }

  ghost predicate UpdateOk(s: State, id: int) {
    id in s.updates ==>
      var u := s.updates[id];
      && u.key in s.current && u.key in s.schemas && Fits(s.schemas[u.key], u.after)
      && (HoldsLock(u.phase) ==> u.key in s.locks && s.locks[u.key] == id && u.before == s.current[u.key])
      && (u.phase.HasRead? ==> u.phase.existing == SectionsIn(s.files, u.key.file))
      && (u.phase.Notifying? ==> Commit(id, u.key, u.before, u.after) in s.commits)
  }

  ghost predicate LockOk(s: State, key: Key) {
    key in s.locks ==>
      s.locks[key] in s.updates && s.updates[s.locks[key]].key == key && HoldsLock(s.updates[s.locks[key]].phase)
  }

  ghost predicate SectionOk(s: State, key: Key) {
    key in s.current ==>
      && key in s.schemas && key in s.initial && Fits(s.schemas[key], s.current[key])
      && IsChain(s.commits, key, s.initial[key]) && s.current[key] == LastCommitted(s.commits, key, s.initial[key])
  }

  ghost predicate OneOwner(owners: seq<Key>) {
    forall i, j :: 0 <= i < j < |owners| ==> owners[i] != owners[j]
  }

  predicate Reads(s: State, id: int, file: string) {
    id in s.updates && s.updates[id].phase.HasRead? && s.updates[id].key.file == file
  }

  ghost predicate OneReader(s: State) {
    forall file, a, b :: Reads(s, a, file) && Reads(s, b, file) ==> a == b
  }

  /** `files` is what the files were at the start. */
  ghost predicate Consistent(s: State, files: Files) {
    && (forall id :: UpdateOk(s, id)) && OneReader(s) && OneOwner(s.owners)
    && (forall key :: LockOk(s, key)) && (forall key :: SectionOk(s, key)) &&
       (forall key :: StoredRightly(s, files, key))
    && (forall c :: c in s.commits ==> c.key in s.current)
  }

  lemma {:induction false} NoCommitYet(commits: seq<Commit>, key: Key, initial: Fields)
    requires forall c :: c in commits ==> c.key != key
    ensures IsChain(commits, key, initial) && LastCommitted(commits, key, initial) == initial
  {
    if |commits| > 0 {
      assert commits[|commits| - 1] in commits;
      NoCommitYet(commits[..|commits| - 1], key, initial);
    }
  }

  lemma CreateKeeps(s: State, files: Files, key: Key, schema: Schema, initial: Fields)
    requires Consistent(s, files) && (key in s.current || Fits(schema, initial))
    ensures Consistent(Create(s, key, schema, initial), files)
  {
    var s' := Create(s, key, schema, initial);
    if key !in s.current {
      NoCommitYet(s.commits, key, initial);
      forall id ensures UpdateOk(s', id) {
        assert UpdateOk(s, id);
      }
      forall k ensures LockOk(s', k) && SectionOk(s', k) {
        assert LockOk(s, k) && SectionOk(s, k);
      }
      forall k ensures StoredRightly(s', files, k) {
        CreateKeepsStored(s, files, key, schema, initial, k);
      }
      forall file, a, b | Reads(s', a, file) && Reads(s', b, file) ensures a == b {
        assert Reads(s, a, file) && Reads(s, b, file);
      }
    }
  }

  lemma CreateKeepsStored(s: State, files: Files, key: Key, schema: Schema, initial: Fields, k: Key)
    requires Consistent(s, files) && key !in s.current
    ensures StoredRightly(Create(s, key, schema, initial), files, k)
  {
    assert StoredRightly(s, files, k) && LockOk(s, k);
    if k in s.locks {
      assert UpdateOk(s, s.locks[k]);
    }
    if WasCommitted(s.commits, k) {
      var i :| 0 <= i < |s.commits| && s.commits[i].key == k;
      assert s.commits[i] in s.commits;
    }
  }

  /**
   * What stays when an update begins, takes its lock, or has notified: neither files, nor values, nor commits change.
   */
  lemma QuietStepKeeps(s: State, files: Files, s': State, id: int)
    requires Consistent(s, files)
    requires s' == s.(updates := s'.updates, locks := s'.locks, notified := s'.notified)
    requires forall other :: other != id ==> (other in s'.updates) == (other in s.updates)
    requires forall other :: other != id && other in s.updates ==> s'.updates[other] == s.updates[other]
    requires forall key :: key in s.locks ==> key in s'.locks && s'.locks[key] == s.locks[key]
    requires forall key :: key in s'.locks && key !in s.locks ==> s'.locks[key] == id
    requires UpdateOk(s', id)
    requires id in s'.updates ==> !s'.updates[id].phase.HasRead? && !s'.updates[id].phase.HasReplaced?
    requires forall key :: key in s'.locks && s'.locks[key] == id ==> LockOk(s', key)
    requires forall key :: key in s.locks ==> s.locks[key] != id
    ensures Consistent(s', files)
  {
    forall other ensures UpdateOk(s', other) {
      assert UpdateOk(s, other);
    }
    forall file, a, b | Reads(s', a, file) && Reads(s', b, file) ensures a == b {
      assert Reads(s, a, file) && Reads(s, b, file);
    }
    forall key ensures LockOk(s', key) && SectionOk(s', key) {
      assert LockOk(s, key) && SectionOk(s, key);
    }
    forall key ensures StoredRightly(s', files, key) {
      assert StoredRightly(s, files, key) && LockOk(s, key);
    }
  }

  lemma ReadKeeps(s: State, files: Files, id: int)
    requires Consistent(s, files) && Enabled(s, Read(id)) && DoesNotOverlap(s, Read(id))
    ensures Consistent(Do(s, Read(id)), files)
  {
    var s' := Do(s, Read(id));
    forall other ensures UpdateOk(s', other) {
      assert UpdateOk(s, other);
    }
    forall file, a, b | Reads(s', a, file) && Reads(s', b, file) ensures a == b {
      assert a != id ==> Reads(s, a, file);
      assert b != id ==> Reads(s, b, file);
    }
    forall key ensures LockOk(s', key) && SectionOk(s', key) {
      assert LockOk(s, key) && SectionOk(s, key);
    }
    forall key ensures StoredRightly(s', files, key) {
      assert StoredRightly(s, files, key) && LockOk(s, key);
    }
  }

  lemma ReplaceStores(s: State, files: Files, id: int, key: Key)
    requires Consistent(s, files) && Enabled(s, Replace(id))
    ensures var u := s.updates[id];
            StoredAt(Do(s, Replace(id)).files, key) ==
            if key == u.key then AsStored(s.schemas[u.key], u.after) else StoredAt(s.files, key)
  {
    var u := s.updates[id];
    assert UpdateOk(s, id);
    PatchStoresOnlyItsSection(s.files, u.key, s.schemas[u.key], u.after, key);
  }

  lemma ReplaceKeeps(s: State, files: Files, id: int)
    requires Consistent(s, files) && Enabled(s, Replace(id))
    ensures Consistent(Do(s, Replace(id)), files)
  {
    var s', u := Do(s, Replace(id)), s.updates[id];
    forall other ensures UpdateOk(s', other) {
      assert UpdateOk(s, other);
      if other in s.updates && other != id && s.updates[other].phase.HasRead? {
        assert Reads(s, id, u.key.file);
        assert !Reads(s, other, u.key.file);
      }
    }
    forall file, a, b | Reads(s', a, file) && Reads(s', b, file) ensures a == b {
      assert Reads(s, a, file) && Reads(s, b, file);
    }
    forall key ensures LockOk(s', key) && SectionOk(s', key) {
      assert LockOk(s, key) && SectionOk(s, key);
    }
    forall key ensures StoredRightly(s', files, key) {
      assert StoredRightly(s, files, key) && LockOk(s, key) && UpdateOk(s, id);
      ReplaceStores(s, files, id, key);
    }
  }

  lemma WriteFailsKeeps(s: State, files: Files, id: int)
    requires Consistent(s, files) && Enabled(s, WriteFails(id))
    ensures Consistent(Do(s, WriteFails(id)), files)
  {
    var s', mine := Do(s, WriteFails(id)), s.updates[id].key;
    assert UpdateOk(s, id);
    forall other ensures UpdateOk(s', other) {
      assert UpdateOk(s, other);
    }
    forall file, a, b | Reads(s', a, file) && Reads(s', b, file) ensures a == b {
      assert Reads(s, a, file) && Reads(s, b, file);
    }
    forall key ensures LockOk(s', key) && SectionOk(s', key) {
      assert LockOk(s, key) && SectionOk(s, key);
    }
    forall key ensures StoredRightly(s', files, key) {
      assert StoredRightly(s, files, key) && LockOk(s, key);
    }
  }

  lemma CommitKeepsSections(s: State, files: Files, id: int, key: Key)
    requires Consistent(s, files) && Enabled(s, CommitStep(id))
    ensures SectionOk(Do(s, CommitStep(id)), key)
  {
    var s', u := Do(s, CommitStep(id)), s.updates[id];
    assert UpdateOk(s, id) && SectionOk(s, key);
    assert s'.commits[..|s'.commits| - 1] == s.commits;
  }

  lemma CommitKeepsStored(s: State, files: Files, id: int, key: Key)
    requires Consistent(s, files) && Enabled(s, CommitStep(id))
    ensures StoredRightly(Do(s, CommitStep(id)), files, key)
  {
    var s', u := Do(s, CommitStep(id)), s.updates[id];
    assert UpdateOk(s, id) && StoredRightly(s, files, key) && LockOk(s, key);
    var n := |s.commits|;
    assert s'.commits[n] == Commit(id, u.key, u.before, u.after);
    if key == u.key {
      assert WasCommitted(s'.commits, key);
      assert IsStored(s, key, u.after);
    } else {
      assert WasCommitted(s'.commits, key) <==> WasCommitted(s.commits, key) by {
        assert forall i :: 0 <= i < n ==> s'.commits[i] == s.commits[i];
      }
    }
  }

  lemma CommitKeeps(s: State, files: Files, id: int)
    requires Consistent(s, files) && Enabled(s, CommitStep(id))
    ensures Consistent(Do(s, CommitStep(id)), files)
  {
    var s', mine := Do(s, CommitStep(id)), s.updates[id].key;
    assert UpdateOk(s, id);
    forall other ensures UpdateOk(s', other) {
      assert UpdateOk(s, other);
    }
    forall file, a, b | Reads(s', a, file) && Reads(s', b, file) ensures a == b {
      assert Reads(s, a, file) && Reads(s, b, file);
    }
    forall key ensures LockOk(s', key) && SectionOk(s', key) {
      assert LockOk(s, key);
      CommitKeepsSections(s, files, id, key);
    }
    forall key ensures StoredRightly(s', files, key) {
      CommitKeepsStored(s, files, id, key);
    }
  }

  lemma StepKeeps(s: State, files: Files, step: Step)
    requires Consistent(s, files) && Enabled(s, step) && DoesNotOverlap(s, step)
    ensures Consistent(Do(s, step), files)
  {
    match step
    case Bind(key, schema, raw) =>
      CreateKeeps(s, files, key, schema, Initial(schema, raw));
      BindKeeps(Create(s, key, schema, Initial(schema, raw)), files, key);
    case Get(key, schema, raw) => CreateKeeps(s, files, key, schema, Initial(schema, raw));
    case Begin(id, key, newValue) => BeginKeeps(s, files, id, key, newValue);
    case Acquire(id) => AcquireKeeps(s, files, id);
    case Read(id) => ReadKeeps(s, files, id);
    case Replace(id) => ReplaceKeeps(s, files, id);
    case WriteFails(id) => WriteFailsKeeps(s, files, id);
    case CommitStep(id) => CommitKeeps(s, files, id);
    case Notify(id) => NotifyKeeps(s, files, id);
  }

  lemma BindKeeps(s: State, files: Files, key: Key)
    requires Consistent(s, files) && key !in s.owners
    ensures Consistent(s.(owners := s.owners + [key]), files)
  {
    var s' := s.(owners := s.owners + [key]);
    forall id ensures UpdateOk(s', id) {
      assert UpdateOk(s, id);
    }
    forall file, a, b | Reads(s', a, file) && Reads(s', b, file) ensures a == b {
      assert Reads(s, a, file) && Reads(s, b, file);
    }
    forall k ensures LockOk(s', k) && SectionOk(s', k) && StoredRightly(s', files, k) {
      assert LockOk(s, k) && SectionOk(s, k) && StoredRightly(s, files, k);
    }
  }

  lemma BeginKeeps(s: State, files: Files, id: int, key: Key, value: Fields)
    requires Consistent(s, files) && Enabled(s, Begin(id, key, value))
    ensures Consistent(Do(s, Begin(id, key, value)), files)
  {
    forall k ensures k in s.locks ==> s.locks[k] != id {
      assert LockOk(s, k);
    }
    QuietStepKeeps(s, files, Do(s, Begin(id, key, value)), id);
  }

  lemma AcquireKeeps(s: State, files: Files, id: int)
    requires Consistent(s, files) && Enabled(s, Acquire(id))
    ensures Consistent(Do(s, Acquire(id)), files)
  {
    assert UpdateOk(s, id);
    forall k ensures k in s.locks ==> s.locks[k] != id {
      assert LockOk(s, k);
    }
    QuietStepKeeps(s, files, Do(s, Acquire(id)), id);
  }

  lemma NotifyKeeps(s: State, files: Files, id: int)
    requires Consistent(s, files) && Enabled(s, Notify(id))
    ensures Consistent(Do(s, Notify(id)), files)
  {
    assert UpdateOk(s, id);
    forall k ensures k in s.locks ==> s.locks[k] != id {
      assert LockOk(s, k);
    }
    QuietStepKeeps(s, files, Do(s, Notify(id)), id);
  }

  lemma {:induction false} RunKeeps(s: State, files: Files, steps: seq<Step>)
    requires Consistent(s, files) && IsRun(s, steps) && HasNoOverlap(s, steps)
    ensures Consistent(Exec(s, steps), files)
    decreases |steps|
  {
    if |steps| > 0 {
      StepKeeps(s, files, steps[0]);
      RunKeeps(Do(s, steps[0]), files, steps[1..]);
    }
  }

  // ----- Commits and notifications

  ghost predicate OneOfEach(commits: seq<Commit>) {
    forall i, j :: 0 <= i < j < |commits| ==> commits[i].id != commits[j].id
  }

  ghost predicate CommitOk(s: State, c: Commit) {
    c.id in s.updates && (s.updates[c.id].phase.Notifying? || (s.updates[c.id].phase.Over? && c in s.notified))
  }

  ghost predicate NotificationOk(s: State, c: Commit) {
    c in s.commits && c.id in s.updates && s.updates[c.id].phase.Over?
  }

  ghost predicate NotifierOk(s: State, id: int) {
    id in s.updates && s.updates[id].phase.Notifying? ==>
      Commit(id, s.updates[id].key, s.updates[id].before, s.updates[id].after) in s.commits
  }

  /** Each update commits at most once, and each commit is notified at most once, when its update is done. */
  ghost predicate LedgerOk(s: State) {
    && OneOfEach(s.commits) && OneOfEach(s.notified)
    && (forall c :: c in s.commits ==> CommitOk(s, c)) && (forall c :: c in s.notified ==> NotificationOk(s, c))
    && forall id :: NotifierOk(s, id)
  }

  /** A step that leaves both lists alone, and takes no update into or out of the phases that matter to them. */
  lemma LedgerKept(s: State, s': State, id: int)
    requires LedgerOk(s) && s'.commits == s.commits && s'.notified == s.notified
    requires forall other :: other in s.updates && other != id ==>
             other in s'.updates && s'.updates[other] == s.updates[other]
    requires forall other :: other in s'.updates && other != id ==> other in s.updates
    requires id in s.updates ==> !s.updates[id].phase.Notifying? && !s.updates[id].phase.Over?
    requires id in s'.updates ==> !s'.updates[id].phase.Notifying?
    ensures LedgerOk(s')
  {
    forall c | c in s'.commits ensures CommitOk(s', c) {
      assert CommitOk(s, c);
    }
    forall c | c in s'.notified ensures NotificationOk(s', c) {
      assert NotificationOk(s, c);
    }
    forall other ensures NotifierOk(s', other) {
      assert NotifierOk(s, other);
    }
  }

  lemma CommitKeepsLedger(s: State, id: int)
    requires LedgerOk(s) && Enabled(s, CommitStep(id))
    ensures LedgerOk(Do(s, CommitStep(id)))
  {
    var s' := Do(s, CommitStep(id));
    forall c | c in s.commits ensures c.id != id && CommitOk(s', c) {
      assert CommitOk(s, c);
    }
    forall c | c in s'.notified ensures NotificationOk(s', c) {
      assert NotificationOk(s, c);
    }
    forall other ensures NotifierOk(s', other) {
      assert NotifierOk(s, other);
    }
  }

  lemma NotifyKeepsLedger(s: State, id: int)
    requires LedgerOk(s) && Enabled(s, Notify(id))
    ensures LedgerOk(Do(s, Notify(id)))
  {
    var s' := Do(s, Notify(id));
    assert NotifierOk(s, id);
    forall c | c in s'.commits ensures CommitOk(s', c) {
      assert CommitOk(s, c);
      CommitIsOfUpdate(s, id, c);
    }
    forall c | c in s.notified ensures c.id != id && NotificationOk(s', c) {
      assert NotificationOk(s, c);
    }
    forall other ensures NotifierOk(s', other) {
      assert NotifierOk(s, other);
    }
  }

  lemma CommitIsOfUpdate(s: State, id: int, c: Commit)
    requires LedgerOk(s) && id in s.updates && s.updates[id].phase.Notifying? && c in s.commits
    ensures c.id == id ==> c == Commit(id, s.updates[id].key, s.updates[id].before, s.updates[id].after)
  {
    assert NotifierOk(s, id);
  }

  lemma StepKeepsLedger(s: State, step: Step)
    requires LedgerOk(s) && Enabled(s, step)
    ensures LedgerOk(Do(s, step))
  {
    match step {
      case Bind(_, _, _) => LedgerKeptByCreate(s, Do(s, step));
      case Get(_, _, _) => LedgerKeptByCreate(s, Do(s, step));
      case CommitStep(id) => CommitKeepsLedger(s, id);
      case Notify(id) => NotifyKeepsLedger(s, id);
      case _ => LedgerKeptByOther(s, step);
    }
  }

  lemma LedgerKeptByOther(s: State, step: Step)
    requires LedgerOk(s) && Enabled(s, step)
    requires !step.Bind? && !step.Get? && !step.CommitStep? && !step.Notify?
    ensures LedgerOk(Do(s, step))
  {
    LedgerKept(s, Do(s, step), step.id);
  }

  lemma {:induction false} LedgerOverRuns(s: State, steps: seq<Step>)
    requires LedgerOk(s) && IsRun(s, steps)
    ensures LedgerOk(Exec(s, steps))
    decreases |steps|
  {
    if |steps| > 0 {
      StepKeepsLedger(s, steps[0]);
      LedgerOverRuns(Do(s, steps[0]), steps[1..]);
    }
  }

  lemma LedgerKeptByCreate(s: State, s': State)
    requires LedgerOk(s) && s'.commits == s.commits && s'.notified == s.notified && s'.updates == s.updates
    ensures LedgerOk(s')
  {
    forall c | c in s'.commits ensures CommitOk(s', c) {
      assert CommitOk(s, c);
    }
    forall c | c in s'.notified ensures NotificationOk(s', c) {
      assert NotificationOk(s, c);
    }
    forall other ensures NotifierOk(s', other) {
      assert NotifierOk(s, other);
    }
  }

  lemma {:induction false} OneOfEachCount(commits: seq<Commit>, c: Commit)
    requires OneOfEach(commits)
    ensures multiset(commits)[c] == if c in commits then 1 else 0
  {
    if |commits| > 0 {
      var before, last := commits[..|commits| - 1], commits[|commits| - 1];
      OneOfEachCount(before, c);
      assert commits == before + [last];
    }
  }

  /**
   * Over every run, with overlapping writes or without: notifications are of commits, each at most once, and of all
   * of them once no update has still to notify.
   */
  lemma NotifiedAreCommitted(files: Files, steps: seq<Step>)
    requires IsRun(Start(files), steps)
    ensures var s := Exec(Start(files), steps);
            && multiset(s.notified) <= multiset(s.commits)
            && ((forall id :: id in s.updates ==> !s.updates[id].phase.Notifying?) ==>
               multiset(s.notified) == multiset(s.commits))
  {
    var s := Exec(Start(files), steps);
    LedgerOverRuns(Start(files), steps);
    forall c ensures multiset(s.notified)[c] <= multiset(s.commits)[c] {
      OneOfEachCount(s.notified, c);
      OneOfEachCount(s.commits, c);
      assert c in s.notified ==> NotificationOk(s, c);
    }
    if forall id :: id in s.updates ==> !s.updates[id].phase.Notifying? {
      forall c ensures multiset(s.notified)[c] == multiset(s.commits)[c] {
        OneOfEachCount(s.notified, c);
        OneOfEachCount(s.commits, c);
        assert c in s.notified ==> NotificationOk(s, c);
        assert c in s.commits ==> CommitOk(s, c);
      }
    }
  }

  /**
   * Over every run of binds, reads and updates, failing or not, whose writes of one file do not overlap: a section
   * has at most one owner; what readers get is what was last committed, each commit starting from the one before;
   * only commits are notified; the file holds what is in memory of every section that was updated, and of the others
   * what it held before.
   */
  lemma SectionsOverRuns(files: Files, steps: seq<Step>, key: Key)
    requires IsRun(Start(files), steps) && HasNoOverlap(Start(files), steps)
    ensures var s := Exec(Start(files), steps);
            && OneOwner(s.owners)
            && multiset(s.notified) <= multiset(s.commits)
            && (key in s.current ==>
                  && key in s.initial && s.current[key] == LastCommitted(s.commits, key, s.initial[key])
                  && IsChain(s.commits, key, s.initial[key]))
            && (key !in s.locks && WasCommitted(s.commits, key) ==>
                  && key in s.current && key in s.schemas
                  && Overlay(s.schemas[key].defaults, FieldsOf(StoredAt(s.files, key))) == s.current[key])
            && (key !in s.locks && !WasCommitted(s.commits, key) ==> StoredAt(s.files, key) == StoredAt(files, key))
  {
    var s := Exec(Start(files), steps);
    RunKeeps(Start(files), files, steps);
    NotifiedAreCommitted(files, steps);
    assert SectionOk(s, key) && StoredRightly(s, files, key);
    if key !in s.locks && WasCommitted(s.commits, key) {
      StoredFieldsGiveValue(s.schemas[key], s.current[key]);
    }
  }

  // ----- Writes that overlap

  /** The steps of two updates of which the second reads the file before the first has replaced it. */
  function Overlapping(a: int, b: int): seq<Step> {
    [Read(a), Read(b), Replace(a), CommitStep(a), Replace(b), CommitStep(b)]
  }

  /** A section of `file` other than this one, or a section of another file. */
  ghost predicate OthersStay(before: Files, after: Files, key: Key) {
    forall other: Key :: other != key ==> StoredAt(after, other) == StoredAt(before, other)
  }

  /** A write leaves every other section of every file as it is exactly when what was read of them is still true. */
  lemma ReplaceKeepsOthersIff(s: State, id: int)
    requires Enabled(s, Replace(id))
    ensures var u := s.updates[id];
            OthersStay(s.files, Do(s, Replace(id)).files, u.key) <==>
            u.phase.existing - {u.key.section} == SectionsIn(s.files, u.key.file) - {u.key.section}
  {
    var u := s.updates[id];
    var files' := Do(s, Replace(id)).files;
    var read, now := u.phase.existing - {u.key.section}, SectionsIn(s.files, u.key.file) - {u.key.section};
    assert SectionsIn(files', u.key.file) - {u.key.section} == read;
    if OthersStay(s.files, files', u.key) {
      forall section | section != u.key.section
        ensures (section in read <==> section in now) && (section in read ==> read[section] == now[section])
      {
        assert StoredAt(files', Key(u.key.file, section)) == StoredAt(s.files, Key(u.key.file, section));
      }
      assert read.Keys == now.Keys;
    }
    if read == now {
      forall other: Key | other != u.key ensures StoredAt(files', other) == StoredAt(s.files, other) {
        if other.file == u.key.file {
          assert other.section in read <==> other.section in SectionsIn(s.files, u.key.file);
          assert other.section in read <==> other.section in SectionsIn(files', u.key.file);
        }
      }
    }
  }

  /**
   * Two sections of one file have each their own lock, so their writes may overlap; then the later one puts back
   * what the file held of the other section before, while memory keeps the new value.
   */
  lemma OverlapLosesUpdate(s: State, files: Files, a: int, b: int)
    requires Consistent(s, files) && At(s, a) && At(s, b) && s.updates[a].phase.Writing? && s.updates[b].phase.Writing?
    requires s.updates[a].key != s.updates[b].key && s.updates[a].key.file == s.updates[b].key.file
    ensures IsRun(s, Overlapping(a, b))
    ensures var s', key := Exec(s, Overlapping(a, b)), s.updates[a].key;
            && key in s'.current && s'.current[key] == s.updates[a].after && key !in s'.locks
            && StoredAt(s'.files, key) == StoredAt(s.files, key)
  {
    var u, v := s.updates[a], s.updates[b];
    assert UpdateOk(s, a) && UpdateOk(s, b);
    var end := OverlapRun(s, a, b, u, v, Overlapping(a, b));
    PatchStoresOnlyItsSection(s.files, v.key, s.schemas[v.key], v.after, u.key);
  }

  lemma {:induction false} RunInParts(s: State, steps: seq<Step>, more: seq<Step>)
    requires IsRun(s, steps) && IsRun(Exec(s, steps), more)
    ensures IsRun(s, steps + more) && Exec(s, steps + more) == Exec(Exec(s, steps), more)
    decreases |steps|
  {
    if |steps| == 0 {
      assert steps + more == more;
    } else {
      RunInParts(Do(s, steps[0]), steps[1..], more);
      assert (steps + more)[0] == steps[0] && (steps + more)[1..] == steps[1..] + more;
      RunFrom(s, steps + more, Exec(Exec(s, steps), more));
    }
  }

  /** The steps lead from the start to this state. */
  ghost predicate Reaches(files: Files, steps: seq<Step>, s: State) {
    IsRun(Start(files), steps) && Exec(Start(files), steps) == s && Consistent(s, files)
  }

  /** One more step, which reads nothing. */
  lemma Then(files: Files, steps: seq<Step>, s: State, step: Step) returns (s': State)
    requires Reaches(files, steps, s) && Enabled(s, step) && !step.Read?
    ensures s' == Do(s, step) && Reaches(files, steps + [step], s')
  {
    s' := Do(s, step);
    StepKeeps(s, files, step);
    assert [step][1..] == [];
    RunInParts(Start(files), steps, [step]);
  }

  lemma DefaultsAreInitial(schema: Schema)
    ensures ValidateEntries(schema, map[]).Some? && Initial(schema, map[]) == schema.defaults
  {
  }

  /** Every value of a field is one that the schema takes. */
  ghost predicate IsAccepted(schema: Schema, value: Fields) {
    forall f :: f in value ==> schema.accepts(f, value[f])
  }

  lemma AcceptedStays(schema: Schema, value: Fields)
    requires Fits(schema, value) && IsAccepted(schema, value)
    ensures Validate(schema, value) == Some(value)
  {
    assert Overlay(schema.defaults, value) == value;
  }

  /** Two sections with an owner each. */
  lemma BothBound(files: Files, a: Key, b: Key, schema: Schema) returns (steps: seq<Step>, s: State)
    requires a != b
    ensures Reaches(files, steps, s) && s.files == files && s.owners == [a, b] && s.locks == map[] && s.updates == map[]
    ensures s.current == map[a := schema.defaults, b := schema.defaults] && s.schemas == map[a := schema, b := schema]
  {
    DefaultsAreInitial(schema);
    var s1 := Then(files, [], Start(files), Bind(a, schema, map[]));
    steps := [] + [Bind(a, schema, map[])];
    s := Then(files, steps, s1, Bind(b, schema, map[]));
    steps := steps + [Bind(b, schema, map[])];
  }

  /** An update of each has begun. */
  lemma BothBegun(files: Files, a: Key, b: Key, schema: Schema, value: Fields) returns (steps: seq<Step>, s: State)
    requires a != b && Fits(schema, value) && IsAccepted(schema, value)
    ensures Reaches(files, steps, s) && s.files == files && s.locks == map[]
    ensures s.current == map[a := schema.defaults, b := schema.defaults]
    ensures s.updates == map[1 := Update(a, value, value, Waiting), 2 := Update(b, value, value, Waiting)]
  {
    var s0;
    steps, s0 := BothBound(files, a, b, schema);
    AcceptedStays(schema, value);
    var s1 := Then(files, steps, s0, Begin(1, a, value));
    steps := steps + [Begin(1, a, value)];
    s := Then(files, steps, s1, Begin(2, b, value));
    steps := steps + [Begin(2, b, value)];
  }

  /** And each has the lock of its section. */
  lemma BothWriting(files: Files, a: Key, b: Key, schema: Schema, value: Fields) returns (steps: seq<Step>, s: State)
    requires a != b && Fits(schema, value) && IsAccepted(schema, value)
    ensures Reaches(files, steps, s) && s.files == files && At(s, 1) && At(s, 2)
    ensures s.updates[1] == Update(a, schema.defaults, value, Writing) &&
            s.updates[2] == Update(b, schema.defaults, value, Writing)
  {
    var s0;
    steps, s0 := BothBegun(files, a, b, schema, value);
    var s1 := Then(files, steps, s0, Acquire(1));
    steps := steps + [Acquire(1)];
    s := Then(files, steps, s1, Acquire(2));
    steps := steps + [Acquire(2)];
  }

  /** Such a run from the start: nothing is under way any more, and the file does not hold what is in memory. */
  lemma LossIsReachable(files: Files, a: Key, b: Key, schema: Schema, value: Fields) returns (steps: seq<Step>)
    requires Fits(schema, value) && IsAccepted(schema, value)
    requires a != b && a.file == b.file && AsStored(schema, value) != StoredAt(files, a)
    ensures IsRun(Start(files), steps)
    ensures var s := Exec(Start(files), steps);
            && a !in s.locks && a in s.current && s.current[a] == value
            && StoredAt(s.files, a) == StoredAt(files, a) != AsStored(schema, value)
  {
    var start, s := BothWriting(files, a, b, schema, value);
    OverlapLosesUpdate(s, files, 1, 2);
    RunInParts(Start(files), start, Overlapping(1, 2));
    steps := start + Overlapping(1, 2);
  }

  lemma OverlapRun(s: State, a: int, b: int, u: Update, v: Update, steps: seq<Step>) returns (end: State)
    requires At(s, a) && At(s, b) && s.updates[a] == u && s.updates[b] == v && u.phase.Writing? && v.phase.Writing?
    requires u.key != v.key && u.key.file == v.key.file
    requires u.key in s.schemas && Fits(s.schemas[u.key], u.after) && v.key in s.schemas
    requires Fits(s.schemas[v.key], v.after)
    requires |steps| == 6 && steps[0] == Read(a) && steps[1] == Read(b) && steps[2] == Replace(a)
    requires steps[3] == CommitStep(a) && steps[4] == Replace(b) && steps[5] == CommitStep(b)
    ensures IsRun(s, steps) && Exec(s, steps) == end
    ensures u.key in end.current && end.current[u.key] == u.after && u.key !in end.locks
    ensures SectionsIn(end.files, v.key.file) ==
            Patch(SectionsIn(s.files, v.key.file), v.key.section, Dump(s.schemas[v.key], v.after))
  {
    var s1, s2, s3 := BothReadFirst(s, a, b);
    var s4, s5, s6 := SecondReplacesLast(s3, a, b, SectionsIn(s.files, v.key.file));
    Runs6(s, steps, s1, s2, s3, s4, s5, s6);
    end := s6;
  }

  lemma BothReadFirst(s: State, a: int, b: int) returns (s1: State, s2: State, s3: State)
    requires At(s, a) && At(s, b) && s.updates[a].phase.Writing? && s.updates[b].phase.Writing?
    requires s.updates[a].key.file == s.updates[b].key.file && a != b
    requires s.updates[a].key in s.schemas && Fits(s.schemas[s.updates[a].key], s.updates[a].after)
    ensures Enabled(s, Read(a)) && s1 == Do(s, Read(a)) && Enabled(s1, Read(b)) && s2 == Do(s1, Read(b))
    ensures Enabled(s2, Replace(a)) && s3 == Do(s2, Replace(a))
    ensures s3.current == s.current && s3.schemas == s.schemas && At(s3, a) && At(s3, b)
    ensures s3.updates[a] == s.updates[a].(phase := HasReplaced)
    ensures s3.updates[b] == s.updates[b].(phase := HasRead(SectionsIn(s.files, s.updates[b].key.file)))
  {
    s1 := Do(s, Read(a));
    s2 := Do(s1, Read(b));
    s3 := Do(s2, Replace(a));
  }

  lemma SecondReplacesLast(s: State, a: int, b: int, existing: map<string, ConfigMerge.Value>)
    returns (s1: State, s2: State, s3: State)
    requires At(s, a) && At(s, b) && s.updates[a].phase.HasReplaced? && s.updates[b].phase == HasRead(existing)
    requires s.updates[a].key != s.updates[b].key
    requires s.updates[b].key in s.schemas && Fits(s.schemas[s.updates[b].key], s.updates[b].after)
    ensures Enabled(s, CommitStep(a)) && s1 == Do(s, CommitStep(a)) && Enabled(s1, Replace(b)) &&
            s2 == Do(s1, Replace(b))
    ensures Enabled(s2, CommitStep(b)) && s3 == Do(s2, CommitStep(b))
    ensures var key := s.updates[a].key; key in s3.current && s3.current[key] == s.updates[a].after && key !in s3.locks
    ensures var v := s.updates[b];
            SectionsIn(s3.files, v.key.file) == Patch(existing, v.key.section, Dump(s.schemas[v.key], v.after))
  {
    s1 := Do(s, CommitStep(a));
    s2 := Do(s1, Replace(b));
    s3 := Do(s2, CommitStep(b));
  }

  lemma Runs6(s: State, steps: seq<Step>, s1: State, s2: State, s3: State, s4: State, s5: State, s6: State)
    requires |steps| == 6
    requires Enabled(s, steps[0]) && s1 == Do(s, steps[0]) && Enabled(s1, steps[1]) && s2 == Do(s1, steps[1])
    requires Enabled(s2, steps[2]) && s3 == Do(s2, steps[2]) && Enabled(s3, steps[3]) && s4 == Do(s3, steps[3])
    requires Enabled(s4, steps[4]) && s5 == Do(s4, steps[4]) && Enabled(s5, steps[5]) && s6 == Do(s5, steps[5])
    ensures IsRun(s, steps) && Exec(s, steps) == s6
  {
    assert IsRun(s6, steps[6..]);
    RunFrom(s5, steps[5..], s6);
    RunFrom(s4, steps[4..], s6);
    RunFrom(s3, steps[3..], s6);
    RunFrom(s2, steps[2..], s6);
    RunFrom(s1, steps[1..], s6);
    RunFrom(s, steps, s6);
  }

  lemma RunFrom(s: State, steps: seq<Step>, end: State)
    requires |steps| > 0 && Enabled(s, steps[0]) && IsRun(Do(s, steps[0]), steps[1..])
    requires Exec(Do(s, steps[0]), steps[1..]) == end
    ensures IsRun(s, steps) && Exec(s, steps) == end
  {
  }
}
