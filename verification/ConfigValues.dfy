/** Over every run of updates, overlapping or not, all values are such as their schemas take. */
module ConfigValues {
  import opened Options
  import opened ConfigSection
  import opened ConfigRuns

  /** The fields of the schema, each with its default or a value that the schema takes. */
  ghost predicate IsTaken(schema: Schema, value: Fields) {
    && (forall f :: f in value <==> f in schema.defaults)
    && (forall f :: f in value && f in schema.defaults ==>
          value[f] == schema.defaults[f] || schema.accepts(f, value[f]))
  }

  ghost predicate IsTakenAt(s: State, key: Key, value: Fields) {
    key in s.schemas && IsTaken(s.schemas[key], value)
  }

  ghost predicate AllTaken(s: State) {
    && (forall key :: key in s.schemas ==> key in s.current)
    && (forall key :: key in s.current ==> IsTakenAt(s, key, s.current[key]))
    && (forall id :: id in s.updates ==> IsTakenAt(s, s.updates[id].key, s.updates[id].after))
    && (forall c :: c in s.commits ==> IsTakenAt(s, c.key, c.after))
  }

  lemma ValidatedIsTaken(schema: Schema, given: Fields)
    ensures Validate(schema, given).Some? ==> IsTaken(schema, Validate(schema, given).value)
  {
    ValidateIff(schema, given);
  }

  lemma CreateKeepsTaken(s: State, key: Key, schema: Schema, raw: map<string, ConfigMerge.Value>)
    requires AllTaken(s) && MayShare(s, key, schema, raw)
    ensures AllTaken(Create(s, key, schema, Initial(schema, raw)))
  {
    var s' := Create(s, key, schema, Initial(schema, raw));
    ValidatedIsTaken(schema, TextsOf(raw));
    forall k | k in s'.current ensures IsTakenAt(s', k, s'.current[k]) {
      assert k in s.current ==> IsTakenAt(s, k, s.current[k]);
    }
    forall id | id in s'.updates ensures IsTakenAt(s', s'.updates[id].key, s'.updates[id].after) {
      assert IsTakenAt(s, s.updates[id].key, s.updates[id].after);
    }
    forall c | c in s'.commits ensures IsTakenAt(s', c.key, c.after) {
      assert IsTakenAt(s, c.key, c.after);
    }
  }

  /** The steps of an update after its validation. */
  lemma UpdateKeepsTaken(s: State, step: Step)
    requires AllTaken(s) && Enabled(s, step) && !step.Bind? && !step.Get?
    ensures AllTaken(Do(s, step))
  {
    var s' := Do(s, step);
    if step.Begin? {
      ValidatedIsTaken(s.schemas[step.key], step.newValue);
    } else {
      assert IsTakenAt(s, s.updates[step.id].key, s.updates[step.id].after);
    }
    forall k | k in s'.current ensures IsTakenAt(s', k, s'.current[k]) {
      assert IsTakenAt(s, k, s.current[k]);
    }
    forall id | id in s'.updates ensures IsTakenAt(s', s'.updates[id].key, s'.updates[id].after) {
      assert id in s.updates ==> IsTakenAt(s, s.updates[id].key, s.updates[id].after);
    }
    forall c | c in s'.commits ensures IsTakenAt(s', c.key, c.after) {
      assert c in s.commits ==> IsTakenAt(s, c.key, c.after);
    }
  }

  lemma StepKeepsTaken(s: State, step: Step)
    requires AllTaken(s) && Enabled(s, step)
    ensures AllTaken(Do(s, step))
  {
    match step {
      case Bind(key, schema, raw) => CreateKeepsTaken(s, key, schema, raw);
      case Get(key, schema, raw) => CreateKeepsTaken(s, key, schema, raw);
      case _ => UpdateKeepsTaken(s, step);
    }
  }

  lemma {:induction false} RunKeepsTaken(s: State, steps: seq<Step>)
    requires AllTaken(s) && IsRun(s, steps)
    ensures AllTaken(Exec(s, steps))
    decreases |steps|
  {
    if |steps| > 0 {
      StepKeepsTaken(s, steps[0]);
      RunKeepsTaken(Do(s, steps[0]), steps[1..]);
    }
  }

  /** From the start: what is in memory, and what was ever committed, has every field accepted or as by default. */
  lemma ValuesOverRuns(files: Files, steps: seq<Step>)
    requires IsRun(Start(files), steps)
    ensures var s := Exec(Start(files), steps);
            && (forall key :: key in s.current ==> key in s.schemas && IsTaken(s.schemas[key], s.current[key]))
            && (forall c :: c in s.commits ==> c.key in s.schemas && IsTaken(s.schemas[c.key], c.after))
  {
    RunKeepsTaken(Start(files), steps);
  }
}
