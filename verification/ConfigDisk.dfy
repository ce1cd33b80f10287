/** What the files hold at the end of any run of updates, whether writes of one file overlap or not. */
module ConfigDisk {
  import opened Options
  import opened ConfigSection
  import opened ConfigRuns

  // ----- The states of a run

  ghost predicate Leads(s: State, step: Step, s': State) {
    Enabled(s, step) && s' == Do(s, step)
  }

  ghost predicate LeadsOn(steps: seq<Step>, states: seq<State>, n: nat) {
    n + 1 < |states| && n < |steps| ==> Leads(states[n], steps[n], states[n + 1])
  }

  /** State `n` is the one before step `n`. */
  ghost predicate IsTrace(s: State, steps: seq<Step>, states: seq<State>) {
    |states| == |steps| + 1 && states[0] == s && forall n :: 0 <= n < |steps| ==> LeadsOn(steps, states, n)
  }

  /** Every run has its states, and the last one is where it ends. */
  lemma {:induction false} TraceOf(s: State, steps: seq<Step>) returns (states: seq<State>)
    requires IsRun(s, steps)
    ensures IsTrace(s, steps, states) && states[|steps|] == Exec(s, steps)
    decreases |steps|
  {
    if |steps| == 0 {
      states := [s];
    } else {
      var rest := TraceOf(Do(s, steps[0]), steps[1..]);
      states := [s] + rest;
      LongerTrace(s, steps[0], steps[1..], rest);
      assert steps == [steps[0]] + steps[1..];
    }
  }

  lemma LongerTrace(s: State, step: Step, steps: seq<Step>, states: seq<State>)
    requires Enabled(s, step) && IsTrace(Do(s, step), steps, states)
    ensures IsTrace(s, [step] + steps, [s] + states)
  {
    var more, trace := [step] + steps, [s] + states;
    forall n | 0 <= n < |more| ensures LeadsOn(more, trace, n) {
      if n > 0 {
        assert LeadsOn(steps, states, n - 1);
        assert more[n] == steps[n - 1] && trace[n] == states[n - 1] && trace[n + 1] == states[n];
      }
    }
  }

  // ----- What holds whether writes overlap or not

  ghost predicate HolderOk(s: State, id: int) {
    id in s.updates && HoldsLock(s.updates[id].phase) ==>
      s.updates[id].key in s.locks && s.locks[s.updates[id].key] == id
  }

  ghost predicate IsOrderly(s: State) {
    && (forall id :: HolderOk(s, id)) && (forall key :: LockOk(s, key)) && s.schemas.Keys == s.current.Keys
    && (forall id :: id in s.updates ==> s.updates[id].key in s.current)
    && forall c :: c in s.commits ==> c.key in s.current
  }

  lemma StepKeepsHolders(s: State, step: Step, id: int)
    requires IsOrderly(s) && Enabled(s, step)
    ensures HolderOk(Do(s, step), id)
  {
    assert HolderOk(s, id);
    if !step.Bind? && !step.Get? {
      assert HolderOk(s, step.id);
    }
  }

  lemma StepKeepsLock(s: State, step: Step, key: Key)
    requires IsOrderly(s) && Enabled(s, step)
    ensures LockOk(Do(s, step), key)
  {
    assert LockOk(s, key);
    if !step.Bind? && !step.Get? {
      assert HolderOk(s, step.id);
    }
  }

  lemma StepKeepsKeys(s: State, step: Step)
    requires IsOrderly(s) && Enabled(s, step)
    ensures Do(s, step).schemas.Keys == Do(s, step).current.Keys && s.current.Keys <= Do(s, step).current.Keys
  {
  }

  lemma StepKeepsUpdates(s: State, step: Step)
    requires IsOrderly(s) && Enabled(s, step) && s.current.Keys <= Do(s, step).current.Keys
    ensures forall id :: id in Do(s, step).updates ==> Do(s, step).updates[id].key in Do(s, step).current
    ensures forall c :: c in Do(s, step).commits ==> c.key in Do(s, step).current
  {
  }

  lemma StepKeepsOrder(s: State, step: Step)
    requires IsOrderly(s) && Enabled(s, step)
    ensures IsOrderly(Do(s, step))
  {
    forall id ensures HolderOk(Do(s, step), id) {
      StepKeepsHolders(s, step, id);
    }
    forall key ensures LockOk(Do(s, step), key) {
      StepKeepsLock(s, step, key);
    }
    StepKeepsKeys(s, step);
    StepKeepsUpdates(s, step);
  }

  lemma {:induction false} OrderAt(files: Files, steps: seq<Step>, states: seq<State>, n: nat)
    requires IsTrace(Start(files), steps, states) && n <= |steps|
    ensures IsOrderly(states[n])
  {
    if n > 0 {
      OrderAt(files, steps, states, n - 1);
      assert LeadsOn(steps, states, n - 1);
      StepKeepsOrder(states[n - 1], steps[n - 1]);
    }
  }

  // ----- The last write of a file

  predicate Writes(s: State, step: Step, file: string) {
    step.Replace? && step.id in s.updates && s.updates[step.id].key.file == file
  }

  /** Of the first `to` steps, `i` is the last one that writes the file. */
  ghost predicate IsLastWrite(steps: seq<Step>, states: seq<State>, i: nat, to: nat, file: string)
    requires to <= |steps| < |states|
  {
    i < to && Writes(states[i], steps[i], file) && forall n :: i < n < to ==> !Writes(states[n], steps[n], file)
  }

  predicate IsWritten(s: State, id: int, key: Key) {
    id in s.updates && s.updates[id].key == key && s.updates[id].phase.HasReplaced?
  }

  /** The section was committed, or will be once its update goes on. */
  ghost predicate HasBeenWritten(s: State, key: Key) {
    WasCommitted(s.commits, key) || exists id :: IsWritten(s, id, key)
  }

  lemma WrittenIsKnown(s: State, key: Key)
    requires IsOrderly(s) && HasBeenWritten(s, key)
    ensures key in s.current
  {
    if i :| 0 <= i < |s.commits| && s.commits[i].key == key {
      assert s.commits[i] in s.commits;
    }
  }

  lemma WrittenByWrite(s: State, step: Step, key: Key)
    requires Enabled(s, step) && HasBeenWritten(Do(s, step), key) && !Writes(s, step, key.file)
    ensures HasBeenWritten(s, key)
  {
    var s' := Do(s, step);
    if step.CommitStep? && s.updates[step.id].key == key {
      assert IsWritten(s, step.id, key);
    } else if i :| 0 <= i < |s'.commits| && s'.commits[i].key == key {
      assert s.commits[i].key == key;
    } else {
      var id :| IsWritten(s', id, key);
      assert IsWritten(s, id, key);
    }
  }

  lemma {:induction false} LastWrite(files: Files, steps: seq<Step>, states: seq<State>, to: nat, key: Key)
    returns (i: nat)
    requires IsTrace(Start(files), steps, states) && to <= |steps| && HasBeenWritten(states[to], key)
    ensures IsLastWrite(steps, states, i, to, key.file) && HasBeenWritten(states[i + 1], key)
  {
    assert to > 0;
    assert LeadsOn(steps, states, to - 1);
    if Writes(states[to - 1], steps[to - 1], key.file) {
      i := to - 1;
    } else {
      WrittenByWrite(states[to - 1], steps[to - 1], key);
      i := LastWrite(files, steps, states, to - 1, key);
    }
  }

  lemma ReadJustBefore(s: State, step: Step, id: int)
    requires Enabled(s, step) && id in Do(s, step).updates && Do(s, step).updates[id].phase.HasRead?
    ensures var u := Do(s, step).updates[id];
            && (step == Read(id) ==> u.phase.existing == SectionsIn(s.files, u.key.file))
            && (step != Read(id) ==> id in s.updates && s.updates[id] == u)
  {
  }

  /** What an update has read is what the file held at the step `r` at which it did. */
  lemma {:induction false} ReadBefore(files: Files, steps: seq<Step>, states: seq<State>, n: nat, id: int)
    returns (r: nat)
    requires IsTrace(Start(files), steps, states) && n <= |steps|
    requires id in states[n].updates && states[n].updates[id].phase.HasRead?
    ensures r < n && steps[r] == Read(id)
    ensures states[n].updates[id].phase.existing == SectionsIn(states[r].files, states[n].updates[id].key.file)
  {
    assert n > 0;
    assert LeadsOn(steps, states, n - 1);
    ReadJustBefore(states[n - 1], steps[n - 1], id);
    if steps[n - 1] == Read(id) {
      r := n - 1;
    } else {
      r := ReadBefore(files, steps, states, n - 1, id);
    }
  }

  // ----- What a write leaves, until the next one

  predicate IsReplaced(s: State, key: Key) {
    key in s.locks && s.locks[key] in s.updates && s.updates[s.locks[key]].phase.HasReplaced?
  }

  /** What the section has in memory, or will have once the update that wrote it goes on. */
  function Settled(s: State, key: Key): Option<Fields> {
    if IsReplaced(s, key) then Some(s.updates[s.locks[key]].after)
    else if key in s.current then Some(s.current[key])
    else None
  }

  /** The section is in both states, with the same schema, the same value and the same stanza on disk. */
  ghost predicate SameSection(a: State, b: State, key: Key) {
    && key in a.current && key in b.current && key in a.schemas && key in b.schemas
    && a.schemas[key] == b.schemas[key] && Settled(a, key) == Settled(b, key)
    && StoredAt(a.files, key) == StoredAt(b.files, key)
  }

  lemma StepKeepsStanza(s: State, step: Step, key: Key)
    requires Enabled(s, step) && !Writes(s, step, key.file)
    ensures StoredAt(Do(s, step).files, key) == StoredAt(s.files, key)
  {
  }

  lemma CommitKeepsSettled(s: State, id: int, key: Key)
    requires IsOrderly(s) && Enabled(s, CommitStep(id)) && key in s.current
    ensures key in Do(s, CommitStep(id)).current && Settled(Do(s, CommitStep(id)), key) == Settled(s, key)
  {
    assert LockOk(s, key) && HolderOk(s, id);
  }

  lemma StepKeepsSettled(s: State, step: Step, key: Key)
    requires IsOrderly(s) && Enabled(s, step) && key in s.current && !Writes(s, step, key.file) && !step.CommitStep?
    ensures key in Do(s, step).current && Settled(Do(s, step), key) == Settled(s, key)
  {
    assert LockOk(s, key);
    if !step.Bind? && !step.Get? {
      assert HolderOk(s, step.id);
    }
  }

  lemma StepKeepsSection(s: State, step: Step, key: Key)
    requires IsOrderly(s) && Enabled(s, step) && key in s.current && !Writes(s, step, key.file)
    ensures SameSection(s, Do(s, step), key)
  {
    StepKeepsStanza(s, step, key);
    if step.CommitStep? {
      CommitKeepsSettled(s, step.id, key);
    } else {
      StepKeepsSettled(s, step, key);
    }
    StepKeepsKeys(s, step);
  }

  /** Between the last write of the file and the end nothing changes for the section. */
  lemma {:induction false} SameSince(files: Files, steps: seq<Step>, states: seq<State>, i: nat, n: nat, key: Key)
    requires IsTrace(Start(files), steps, states) && n <= |steps| && IsLastWrite(steps, states, i, n, key.file)
    requires key in states[i + 1].current
    ensures SameSection(states[i + 1], states[n], key)
  {
    if n == i + 1 {
      OrderAt(files, steps, states, n);
    } else {
      SameSince(files, steps, states, i, n - 1, key);
      OrderAt(files, steps, states, n - 1);
      assert LeadsOn(steps, states, n - 1);
      StepKeepsSection(states[n - 1], steps[n - 1], key);
    }
  }

  /** A write stores its own section, and of every other one of the file what it had read. */
  lemma WriteStores(s: State, id: int, key: Key)
    requires IsOrderly(s) && Enabled(s, Replace(id)) && s.updates[id].key.file == key.file
    ensures var s', u := Do(s, Replace(id)), s.updates[id];
            && (key == u.key ==> IsStored(s', key, u.after) && Settled(s', key) == Some(u.after))
            && (key != u.key ==> StoredAt(s'.files, key) == StanzaIn(u.phase.existing, key.section))
  {
    assert HolderOk(s, id);
  }

  /**
   * Over every run, whether writes overlap or not: a section that was committed, and has no update under way, is on
   * disk as it is in memory exactly when the last update that wrote the file was its own, or had found the value that
   * is now in memory when it read the file.
   */
  lemma DiskAgreesIff(files: Files, steps: seq<Step>, states: seq<State>, s: State, key: Key) returns (i: nat, r: nat)
    requires IsTrace(Start(files), steps, states) && s == states[|steps|]
    requires WasCommitted(s.commits, key) && key !in s.locks
    ensures IsLastWrite(steps, states, i, |steps|, key.file) && r < i && steps[r] == Read(steps[i].id)
    ensures key in s.current
    ensures IsStored(s, key, s.current[key]) <==>
            states[i].updates[steps[i].id].key == key || IsStored(s.(files := states[r].files), key, s.current[key])
  {
    i := LastWrite(files, steps, states, |steps|, key);
    assert LeadsOn(steps, states, i);
    OrderAt(files, steps, states, i);
    OrderAt(files, steps, states, i + 1);
    r := ReadBefore(files, steps, states, i, steps[i].id);
    WriteStores(states[i], steps[i].id, key);
    WrittenIsKnown(states[i + 1], key);
    SameSince(files, steps, states, i, |steps|, key);
  }
}
