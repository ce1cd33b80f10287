/** The queue that shows permission prompts one at a time, built from a chain of promises. */
module PermissionQueues {

  datatype Phase = Waiting | Running | Ended(fulfilled: bool)

  /** A task and the promise it was chained to: 0 is the one resolved from the start, k + 1 that of run k. */
  datatype Run = Run(behind: nat, phase: Phase)

  datatype Happening = Began(run: nat) | Finished(run: nat, fulfilled: bool)

  datatype State = State(tail: nat, runs: seq<Run>, log: seq<Happening>)

  datatype Step = Enqueue | Begin(run: nat) | Finish(run: nat, fulfilled: bool)

  const START := State(0, [], [])

  /** The tail never rejects: it is settled once the run it was made from is, either way. */
  predicate IsSettled(s: State, promise: nat) {
    promise == 0 || (promise <= |s.runs| && s.runs[promise - 1].phase.Ended?)
  }

  predicate Enabled(s: State, step: Step) {
    match step
    case Enqueue => true
    case Begin(run) => run < |s.runs| && s.runs[run].phase.Waiting? && IsSettled(s, s.runs[run].behind)
    case Finish(run, _) => run < |s.runs| && s.runs[run].phase.Running?
  }

  function Do(s: State, step: Step): State
    requires Enabled(s, step)
  {
    match step
    case Enqueue => State(|s.runs| + 1, s.runs + [Run(s.tail, Waiting)], s.log)
    case Begin(run) => State(s.tail, s.runs[run := s.runs[run].(phase := Running)], s.log + [Began(run)])
    case Finish(run, fulfilled) =>
      State(s.tail, s.runs[run := s.runs[run].(phase := Ended(fulfilled))], s.log + [Finished(run, fulfilled)])
  }

  ghost predicate IsRun(s: State, steps: seq<Step>)
    decreases |steps|
  {
    |steps| > 0 ==> Enabled(s, steps[0]) && IsRun(Do(s, steps[0]), steps[1..])
  }

  function Exec(s: State, steps: seq<Step>): State
    requires IsRun(s, steps)
    decreases |steps|
  {
    if |steps| == 0 then s else Exec(Do(s, steps[0]), steps[1..])
  }

  class PermissionQueue {
    var tail: nat
    var runs: seq<Run>

    constructor ()
      ensures tail == 0 && runs == []
    {
      tail, runs := 0, [];
    }

    /** `enqueue`: the task waits for the tail, and the tail for the task. */
    method EnqueueTask(ghost log: seq<Happening>) returns (run: nat)
      modifies this
      ensures State(tail, runs, log) == Do(State(old(tail), old(runs), log), Enqueue) && run == |old(runs)|
    {
      run := |runs|;
      runs := runs + [Run(tail, Waiting)];
      tail := run + 1;
    }
  }

  // ----- One after the other

  /**
   * Of each two entries of the log one says that a task began, and the next that it ended: in order, without overlap.
   */
  ghost predicate IsOneByOne(log: seq<Happening>) {
    forall k :: 0 <= k < |log| ==>
           (if k % 2 == 0 then log[k] == Began(k / 2) else log[k].Finished? && log[k].run == k / 2)
  }

  ghost predicate IsPhaseAt(s: State, i: nat) {
    i < |s.runs| ==>
      && s.runs[i].behind == i
      && (s.runs[i].phase.Ended? <==> 2 * i + 1 < |s.log|)
      && (s.runs[i].phase.Running? <==> 2 * i + 1 == |s.log|)
  }

  ghost predicate IsConsistent(s: State) {
    && s.tail == |s.runs| && |s.log| <= 2 * |s.runs| && IsOneByOne(s.log)
    && forall i :: IsPhaseAt(s, i)
  }

  lemma StepKeeps(s: State, step: Step)
    requires IsConsistent(s) && Enabled(s, step)
    ensures IsConsistent(Do(s, step))
  {
    var s' := Do(s, step);
    if step.Begin? {
      assert IsPhaseAt(s, step.run) && (step.run > 0 ==> IsPhaseAt(s, step.run - 1));
    } else if step.Finish? {
      assert IsPhaseAt(s, step.run);
    }
    forall i ensures IsPhaseAt(s', i) {
      assert IsPhaseAt(s, i);
    }
  }

  lemma {:induction false} RunKeeps(s: State, steps: seq<Step>)
    requires IsConsistent(s) && IsRun(s, steps)
    ensures IsConsistent(Exec(s, steps))
    decreases |steps|
  {
    if |steps| > 0 {
      StepKeeps(s, steps[0]);
      RunKeeps(Do(s, steps[0]), steps[1..]);
    }
  }

  /**
   * Tasks run in the order in which they were enqueued, each begun only after the one before has ended, whether that
   * one was fulfilled or rejected; and whenever none runs, the next that waits may begin.
   */
  lemma TasksRunOneByOne(steps: seq<Step>)
    requires IsRun(START, steps)
    ensures var s := Exec(START, steps);
            && IsOneByOne(s.log)
            && (forall i, j :: 0 <= i < |s.runs| && 0 <= j < |s.runs| ==>
                  s.runs[i].phase.Running? && s.runs[j].phase.Running? ==> i == j)
            && (|s.log| % 2 == 0 && |s.log| / 2 < |s.runs| ==> Enabled(s, Begin(|s.log| / 2)))
  {
    var s := Exec(START, steps);
    RunKeeps(START, steps);
    forall i, j | 0 <= i < |s.runs| && 0 <= j < |s.runs| && s.runs[i].phase.Running? && s.runs[j].phase.Running?
      ensures i == j {
      assert IsPhaseAt(s, i) && IsPhaseAt(s, j);
    }
    var next := |s.log| / 2;
    assert IsPhaseAt(s, next) && (next > 0 ==> IsPhaseAt(s, next - 1));
  }
}
