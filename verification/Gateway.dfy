/**
 * The gateway adapter as a system of steps. Every inbound message is a handler task of its own; a step is
 * what one task does between two points where it gives up control.
 */
module Gateway {
  import opened Text

  datatype Thread = NoThread | InThread(id: string)

  /** Who is talking, and where: sessions, locks and permission requests are kept per key. */
  datatype Key = Key(peer: string, thread: Thread)

  datatype Decision = AllowOnce | Reject

  const YES_WORDS := {"yes", "y", "ok", "allow", "approve"}

  function Decide(text: string): Decision {
    if Lower(Strip(text)) in YES_WORDS then AllowOnce else Reject
  }

  datatype Resolver = Reply(handler: int) | Shutdown

  datatype Outcome = Unresolved | Resolved(decision: Decision, who: Resolver)

  /** A permission future and the handler that awaits it. */
  datatype Future = Future(owner: int, outcome: Outcome)

  datatype Lock = Free | HeldBy(handler: int)

  datatype Pc =
    | Arrived
    | Replied(future: nat)            // it was a permission reply
    | Locking                         // waits for the session lock
    | Creating                        // holds the lock, awaits the new session
    | Persisting(session: string)     // holds the lock, awaits the write of the session table
    | Turn(session: string)           // runs a turn or a command, without the lock
    | Asking(session: string)         // awaits the delivery of a permission prompt
    | Waiting(session: string, future: nat)
    | Done

  datatype Handler = Handler(key: Key, text: string, pc: Pc)

  datatype State = State(
    handlers: map<int, Handler>,
    sessions: map<Key, string>,       // _peer_sessions
    locks: map<Key, Lock>,            // _session_locks
    pending: map<Key, nat>,           // _pending_permissions
    futures: seq<Future>,             // every permission future so far
    creations: seq<Key>,              // every call that created a session
    raised: bool)                     // a future was resolved that was resolved before

  datatype Step =
    | Arrive(id: int, key: Key, text: string)
    | Check(id: int)
    | Acquire(id: int)
    | Created(id: int, session: string)
    | CreateFails(id: int)
    | Persisted(id: int)
    | PersistFails(id: int)
    | Ask(id: int)
    | SendFails(id: int)
    | Register(id: int)
    | Resume(id: int)
    | End(id: int)
    | Stop

  predicate AtPc(s: State, id: int, pc: Pc) {
    id in s.handlers && s.handlers[id].pc == pc
  }

  predicate IsCommand(text: string) {
    |text| > 0 && text[0] == '/'
  }

  predicate Enabled(s: State, step: Step) {
    match step
    case Arrive(id, _, _) => id !in s.handlers
    case Check(id) => AtPc(s, id, Arrived)
    case Acquire(id) => AtPc(s, id, Locking) && s.handlers[id].key in s.locks && s.locks[s.handlers[id].key] == Free
    case Created(id, _) => AtPc(s, id, Creating)
    case CreateFails(id) => AtPc(s, id, Creating)
    case Persisted(id) => id in s.handlers && s.handlers[id].pc.Persisting?
    case PersistFails(id) => id in s.handlers && s.handlers[id].pc.Persisting?
    case Ask(id) => id in s.handlers && s.handlers[id].pc.Turn? && !IsCommand(s.handlers[id].text)
    case SendFails(id) => id in s.handlers && s.handlers[id].pc.Asking?
    case Register(id) => id in s.handlers && s.handlers[id].pc.Asking?
    case Resume(id) =>
      id in s.handlers && s.handlers[id].pc.Waiting? && s.handlers[id].pc.future < |s.futures| &&
      s.futures[s.handlers[id].pc.future].outcome.Resolved?
    case End(id) => id in s.handlers && s.handlers[id].pc.Turn?
    case Stop => true
  }

  function Goto(s: State, id: int, pc: Pc): State
    requires id in s.handlers
  {
    s.(handlers := s.handlers[id := s.handlers[id].(pc := pc)])
  }

  /** `set_result`: resolving twice is an error. */
  function Resolve(s: State, future: nat, decision: Decision, who: Resolver): State {
    if future < |s.futures| && s.futures[future].outcome == Unresolved then
      s.(futures := s.futures[future := s.futures[future].(outcome := Resolved(decision, who))])
    else s.(raised := true)
  }

  /** `stop` rejects every registered future that is not done. */
  function RejectAll(futures: seq<Future>, pending: set<nat>): seq<Future> {
    seq(|futures|, i requires 0 <= i < |futures| =>
      if i in pending && futures[i].outcome == Unresolved then futures[i].(outcome := Resolved(Reject, Shutdown))
      else futures[i])
  }

  function Do(s: State, step: Step): State
    requires Enabled(s, step)
  {
    match step
    case Arrive(id, key, text) => s.(handlers := s.handlers[id := Handler(key, text, Arrived)])
    case Check(id) =>
      var h := s.handlers[id];
      if h.key in s.pending then
        var future := s.pending[h.key];
        var s1 := s.(pending := s.pending - {h.key});
        Goto(Resolve(s1, future, Decide(h.text), Reply(id)), id, Replied(future))
      else
        var s1 := if h.key in s.locks then s else s.(locks := s.locks[h.key := Free]);
        Goto(s1, id, Locking)
    case Acquire(id) =>
      var key := s.handlers[id].key;
      if key in s.sessions then Goto(s, id, Turn(s.sessions[key]))
      else Goto(s.(locks := s.locks[key := HeldBy(id)]), id, Creating)
    case Created(id, session) =>
      var key := s.handlers[id].key;
      Goto(s.(sessions := s.sessions[key := session], creations := s.creations + [key]), id, Persisting(session))
    case CreateFails(id) => Goto(Release(s, id), id, Done)
    case Persisted(id) => Goto(Release(s, id), id, Turn(s.handlers[id].pc.session))
    case PersistFails(id) => Goto(Release(s, id), id, Done)
    case Ask(id) => Goto(s, id, Asking(s.handlers[id].pc.session))
    case SendFails(id) => Goto(s, id, Turn(s.handlers[id].pc.session))
    case Register(id) =>
      var future := |s.futures|;
      var s1 := s.(futures := s.futures + [Future(id, Unresolved)], pending := s.pending[s.handlers[id].key := future]);
      Goto(s1, id, Waiting(s.handlers[id].pc.session, future))
    case Resume(id) =>
      Goto(s.(pending := s.pending - {s.handlers[id].key}), id, Turn(s.handlers[id].pc.session))
    case End(id) => Goto(s, id, Done)
    case Stop => s.(futures := RejectAll(s.futures, s.pending.Values), pending := map[])
  }

  function Release(s: State, id: int): State
    requires id in s.handlers
  {
    s.(locks := s.locks[s.handlers[id].key := Free])
  }

  // ----- Runs

  predicate IsRun(s: State, steps: seq<Step>)
    decreases |steps|
  {
    |steps| > 0 ==> Enabled(s, steps[0]) && IsRun(Do(s, steps[0]), steps[1..])
  }

  function Exec(s: State, steps: seq<Step>): State
    requires IsRun(s, steps)
    decreases |steps|
  {
    if |steps| == 0 then s else Exec(Do(s, steps[0]), steps[1..])
  }

  /** An adapter just started, with the session table it found on disk. */
  function Start(sessions: map<Key, string>): State {
    State(map[], sessions, map[], map[], [], [], false)
  }

  // ----- Sessions and locks

  predicate HoldsLock(pc: Pc) {
    pc.Creating? || pc.Persisting?
  }

  predicate HasSession(pc: Pc) {
    pc.Persisting? || pc.Turn? || pc.Asking? || pc.Waiting?
  }

  ghost predicate SessionsConsistent(s: State) {
    LocksOk(s.handlers, s.locks) && TableOk(s.handlers, s.sessions) && CreationsOk(s.creations, s.sessions)
  }

  /** Exactly the handlers that create or record a session hold the lock of their key. */
  ghost predicate LocksOk(handlers: map<int, Handler>, locks: map<Key, Lock>) {
    && (forall id :: id in handlers && HoldsLock(handlers[id].pc) ==>
          handlers[id].key in locks && locks[handlers[id].key] == HeldBy(id))
    && (forall key :: key in locks && locks[key].HeldBy? ==> HeldRightly(handlers, key, locks[key].handler))
  }

  predicate HeldRightly(handlers: map<int, Handler>, key: Key, id: int) {
    id in handlers && handlers[id].key == key && HoldsLock(handlers[id].pc)
  }

  /** A handler that has a session has the recorded one; one that creates a session finds none recorded. */
  ghost predicate TableOk(handlers: map<int, Handler>, sessions: map<Key, string>) {
    forall id :: id in handlers ==>
      && (handlers[id].pc.Creating? ==> handlers[id].key !in sessions)
      && (HasSession(handlers[id].pc) ==>
         handlers[id].key in sessions && sessions[handlers[id].key] == handlers[id].pc.session)
  }

  /** No key had a session created twice. */
  ghost predicate CreationsOk(creations: seq<Key>, sessions: map<Key, string>) {
    && (forall i :: 0 <= i < |creations| ==> creations[i] in sessions)
    && (forall i, j :: 0 <= i < j < |creations| ==> creations[i] != creations[j])
  }

  /**
   * The lock is only ever held by a handler that is creating or recording a session, so never across a permission
   * request.
   */
  lemma NoLockWhileWaiting(s: State, id: int)
    requires SessionsConsistent(s) && id in s.handlers
    requires s.handlers[id].pc.Turn? || s.handlers[id].pc.Asking? || s.handlers[id].pc.Waiting?
    ensures forall key :: key in s.locks ==> s.locks[key] != HeldBy(id)
  {
  }

  /** At most one handler per key is between taking and releasing the lock. */
  lemma OneCreatorPerKey(s: State, a: int, b: int)
    requires SessionsConsistent(s) && a in s.handlers && b in s.handlers && s.handlers[a].key == s.handlers[b].key
    requires HoldsLock(s.handlers[a].pc) && HoldsLock(s.handlers[b].pc)
    ensures a == b
  {
  }

  lemma LocksKeptByFreeStep(handlers: map<int, Handler>, locks: map<Key, Lock>, id: int, h: Handler)
    requires LocksOk(handlers, locks) && !HoldsLock(h.pc)
    requires id in handlers ==> !HoldsLock(handlers[id].pc)
    ensures LocksOk(handlers[id := h], locks)
  {
    var handlers' := handlers[id := h];
    forall key | key in locks && locks[key].HeldBy? ensures HeldRightly(handlers', key, locks[key].handler) {
      assert HeldRightly(handlers, key, locks[key].handler);
    }
  }

  lemma LocksKeptByHolderStep(handlers: map<int, Handler>, locks: map<Key, Lock>, id: int, h: Handler)
    requires LocksOk(handlers, locks) && id in handlers && HoldsLock(handlers[id].pc) && HoldsLock(h.pc)
    requires h.key == handlers[id].key
    ensures LocksOk(handlers[id := h], locks)
  {
    var handlers' := handlers[id := h];
    forall key | key in locks && locks[key].HeldBy? ensures HeldRightly(handlers', key, locks[key].handler) {
      assert HeldRightly(handlers, key, locks[key].handler);
    }
  }

  lemma LocksKeptByTaking(handlers: map<int, Handler>, locks: map<Key, Lock>, id: int, h: Handler)
    requires LocksOk(handlers, locks) && id in handlers && !HoldsLock(handlers[id].pc) && HoldsLock(h.pc)
    requires h.key == handlers[id].key
    requires h.key in locks && locks[h.key] == Free
    ensures LocksOk(handlers[id := h], locks[h.key := HeldBy(id)])
  {
    var handlers', locks' := handlers[id := h], locks[h.key := HeldBy(id)];
    forall key | key in locks' && locks'[key].HeldBy? ensures HeldRightly(handlers', key, locks'[key].handler) {
      if key != h.key {
        assert HeldRightly(handlers, key, locks[key].handler);
      }
    }
  }

  lemma LocksKeptByRelease(handlers: map<int, Handler>, locks: map<Key, Lock>, id: int, h: Handler)
    requires LocksOk(handlers, locks) && id in handlers && HoldsLock(handlers[id].pc) && !HoldsLock(h.pc)
    requires h.key == handlers[id].key
    ensures LocksOk(handlers[id := h], locks[h.key := Free])
  {
    var handlers', locks' := handlers[id := h], locks[h.key := Free];
    forall key | key in locks' && locks'[key].HeldBy? ensures HeldRightly(handlers', key, locks'[key].handler) {
      assert HeldRightly(handlers, key, locks[key].handler);
    }
  }

  /** A step moves its own handler and no other. */
  lemma OnlyOneMoves(s: State, step: Step)
    requires Enabled(s, step) && !step.Stop?
    ensures step.id in Do(s, step).handlers
    ensures Do(s, step).handlers == s.handlers[step.id := Do(s, step).handlers[step.id]]
    ensures step.id in s.handlers ==> Do(s, step).handlers[step.id].key == s.handlers[step.id].key
    ensures !step.Arrive? ==> step.id in s.handlers
  {
    if !step.Arrive? {
      MovesToPc(s, step);
    }
  }

  lemma MovesToPc(s: State, step: Step)
    requires Enabled(s, step) && !step.Stop? && !step.Arrive?
    ensures step.id in s.handlers &&
            exists pc :: Do(s, step).handlers == s.handlers[step.id := s.handlers[step.id].(pc := pc)]
  {
    var id := step.id;
    var h' := Do(s, step).handlers[id];
    assert Do(s, step).handlers == s.handlers[id := s.handlers[id].(pc := h'.pc)];
  }

  lemma StepKeepsLocks(s: State, step: Step)
    requires LocksOk(s.handlers, s.locks) && Enabled(s, step)
    ensures LocksOk(Do(s, step).handlers, Do(s, step).locks)
  {
    if !step.Stop? {
      var s' := Do(s, step);
      OnlyOneMoves(s, step);
      if step.Created? {
        LocksKeptByHolderStep(s.handlers, s.locks, step.id, s'.handlers[step.id]);
      } else if step.CreateFails? || step.Persisted? || step.PersistFails? {
        LocksKeptByRelease(s.handlers, s.locks, step.id, s'.handlers[step.id]);
      } else if step.Acquire? && s.handlers[step.id].key !in s.sessions {
        LocksKeptByTaking(s.handlers, s.locks, step.id, s'.handlers[step.id]);
      } else {
        FreeStepKeepsLocks(s, step);
      }
    }
  }

  lemma FreeStepKeepsLocks(s: State, step: Step)
    requires LocksOk(s.handlers, s.locks) && Enabled(s, step) && !step.Stop?
    requires !step.Created? && !step.CreateFails? && !step.Persisted? && !step.PersistFails?
    requires step.Acquire? ==> s.handlers[step.id].key in s.sessions
    ensures LocksOk(Do(s, step).handlers, Do(s, step).locks)
  {
    var s' := Do(s, step);
    OnlyOneMoves(s, step);
    FreeStepHoldsNothing(s, step);
    LocksKeptByFreeStep(s.handlers, s.locks, step.id, s'.handlers[step.id]);
  }

  lemma FreeStepHoldsNothing(s: State, step: Step)
    requires Enabled(s, step) && !step.Stop?
    requires !step.Created? && !step.CreateFails? && !step.Persisted? && !step.PersistFails?
    requires step.Acquire? ==> s.handlers[step.id].key in s.sessions
    ensures step.id in s.handlers ==> !HoldsLock(s.handlers[step.id].pc)
    ensures step.id in Do(s, step).handlers && !HoldsLock(Do(s, step).handlers[step.id].pc)
    ensures Do(s, step).locks == s.locks ||
            (step.Check? && Do(s, step).locks == s.locks[s.handlers[step.id].key := Free])
  {
  }

  lemma OtherStepKeepsTable(s: State, step: Step)
    requires TableOk(s.handlers, s.sessions) && Enabled(s, step) && !step.Created?
    ensures TableOk(Do(s, step).handlers, Do(s, step).sessions) && Do(s, step).sessions == s.sessions
    ensures Do(s, step).creations == s.creations
  {
    if !step.Stop? {
      OnlyOneMoves(s, step);
      MoverFitsTable(s, step);
    }
  }

  lemma MoverFitsTable(s: State, step: Step)
    requires TableOk(s.handlers, s.sessions) && Enabled(s, step) && !step.Created? && !step.Stop?
    ensures step.id in Do(s, step).handlers && Do(s, step).sessions == s.sessions
    ensures var h := Do(s, step).handlers[step.id];
            && (h.pc.Creating? ==> h.key !in s.sessions)
            && (HasSession(h.pc) ==> h.key in s.sessions && s.sessions[h.key] == h.pc.session)
  {
    if step.Check? {
      CheckHasNoSession(s, step.id);
    } else if step.CreateFails? || step.PersistFails? || step.End? || step.Arrive? {
      MoverHasNoSession(s, step);
    } else if step.Acquire? {
      assert s.handlers[step.id].key !in s.sessions ==> Do(s, step).handlers[step.id].pc == Creating;
    } else {
      MoverKeepsSession(s, step);
    }
  }

  lemma CheckHasNoSession(s: State, id: int)
    requires Enabled(s, Check(id))
    ensures id in Do(s, Check(id)).handlers && Do(s, Check(id)).sessions == s.sessions
    ensures var pc := Do(s, Check(id)).handlers[id].pc; pc.Replied? || pc.Locking?
  {
  }

  lemma MoverHasNoSession(s: State, step: Step)
    requires Enabled(s, step) && (step.CreateFails? || step.PersistFails? || step.End? || step.Arrive?)
    ensures step.id in Do(s, step).handlers && Do(s, step).sessions == s.sessions
    ensures var pc := Do(s, step).handlers[step.id].pc; !pc.Creating? && !HasSession(pc)
  {
  }

  lemma MoverKeepsSession(s: State, step: Step)
    requires Enabled(s, step) && (step.Persisted? || step.Ask? || step.SendFails? || step.Register? || step.Resume?)
    ensures step.id in s.handlers && step.id in Do(s, step).handlers && Do(s, step).sessions == s.sessions
    ensures var h, h' := s.handlers[step.id], Do(s, step).handlers[step.id];
            h'.key == h.key && HasSession(h.pc) && HasSession(h'.pc) && h'.pc.session == h.pc.session
  {
  }

  /** Over every step a recorded session stays as it is, and none is created where one is recorded. */
  lemma StepKeepsSessions(s: State, step: Step)
    requires SessionsConsistent(s) && Enabled(s, step)
    ensures SessionsConsistent(Do(s, step))
    ensures s.sessions.Keys <= Do(s, step).sessions.Keys
    ensures forall key :: key in s.sessions ==> Do(s, step).sessions[key] == s.sessions[key]
    ensures s.creations <= Do(s, step).creations
  {
    if step.Created? {
      CreationKeepsSessions(s, step.id, step.session);
    } else {
      StepKeepsLocks(s, step);
      OtherStepKeepsTable(s, step);
    }
  }

  lemma CreationKeepsSessions(s: State, id: int, session: string)
    requires SessionsConsistent(s) && AtPc(s, id, Creating)
    ensures SessionsConsistent(Do(s, Created(id, session)))
  {
    var s', key := Do(s, Created(id, session)), s.handlers[id].key;
    LocksKeptByHolderStep(s.handlers, s.locks, id, s'.handlers[id]);
    forall other | other in s'.handlers && s'.handlers[other].pc.Creating?
      ensures s'.handlers[other].key !in s'.sessions {
      if s.handlers[other].key == key {
        OneCreatorPerKey(s, id, other);
      }
    }
    assert forall i :: 0 <= i < |s.creations| ==> s.creations[i] in s.sessions;
  }

  /** Over every run a recorded session never changes, and no key gets a second one. */
  lemma {:induction false} RunKeepsSessions(s: State, steps: seq<Step>)
    requires SessionsConsistent(s) && IsRun(s, steps)
    ensures var s' := Exec(s, steps);
            && SessionsConsistent(s')
            && s.sessions.Keys <= s'.sessions.Keys
            && (forall key :: key in s.sessions ==> s'.sessions[key] == s.sessions[key])
            && s.creations <= s'.creations
    decreases |steps|
  {
    if |steps| > 0 {
      StepKeepsSessions(s, steps[0]);
      RunKeepsSessions(Do(s, steps[0]), steps[1..]);
    }
  }

  /** From the start of the adapter: at most one creation per key, and none for a key found on disk. */
  lemma SessionsOverRuns(table: map<Key, string>, steps: seq<Step>)
    requires IsRun(Start(table), steps)
    ensures var s := Exec(Start(table), steps);
            && SessionsConsistent(s)
            && (forall key :: key in table ==> key in s.sessions && s.sessions[key] == table[key])
            && (forall i, j :: 0 <= i < j < |s.creations| ==> s.creations[i] != s.creations[j])
  {
    RunKeepsSessions(Start(table), steps);
  }

  // ----- Permission futures

  ghost predicate FuturesConsistent(s: State) {
    && !s.raised
    && (forall key :: key in s.pending ==> Registered(s.handlers, s.futures, key, s.pending[key]))
    && (forall id :: id in s.handlers && s.handlers[id].pc.Waiting? ==>
          s.handlers[id].pc.future < |s.futures| && s.futures[s.handlers[id].pc.future].owner == id)
    && (forall f :: 0 <= f < |s.futures| && s.futures[f].outcome.Resolved? && s.futures[f].outcome.who.Reply? ==>
          AnsweredBy(s.handlers, s.futures, f, s.futures[f].outcome.who.handler))
  }

  /** A registered future is not resolved, and the handler that registered it still waits for it under this key. */
  ghost predicate Registered(handlers: map<int, Handler>, futures: seq<Future>, key: Key, f: nat) {
    f < |futures| && futures[f].outcome == Unresolved && futures[f].owner in handlers &&
    handlers[futures[f].owner].key == key && handlers[futures[f].owner].pc.Waiting? &&
    handlers[futures[f].owner].pc.future == f
  }

  /** The future holds the decision that this handler's message expresses, and the handler did nothing else. */
  ghost predicate AnsweredBy(handlers: map<int, Handler>, futures: seq<Future>, f: nat, id: int) {
    f < |futures| && futures[f].outcome.Resolved? && id in handlers &&
    handlers[id].pc == Replied(f) && futures[f].outcome.decision == Decide(handlers[id].text)
  }

  /** A handler that moves, but neither waits nor answered before or after, disturbs no future. */
  lemma FuturesKeptByOtherStep(s: State, s': State, id: int, h: Handler)
    requires FuturesConsistent(s) && s'.handlers == s.handlers[id := h] && s'.futures == s.futures
    requires s'.pending == s.pending
    requires !s'.raised && !h.pc.Waiting?
    requires id in s.handlers ==> !s.handlers[id].pc.Waiting? && !s.handlers[id].pc.Replied?
    ensures FuturesConsistent(s')
  {
    forall key | key in s'.pending ensures Registered(s'.handlers, s'.futures, key, s'.pending[key]) {
      assert Registered(s.handlers, s.futures, key, s.pending[key]);
    }
    forall f | 0 <= f < |s'.futures| && s'.futures[f].outcome.Resolved? && s'.futures[f].outcome.who.Reply?
      ensures AnsweredBy(s'.handlers, s'.futures, f, s'.futures[f].outcome.who.handler)
    {
      assert AnsweredBy(s.handlers, s.futures, f, s.futures[f].outcome.who.handler);
    }
  }

  lemma FuturesKeptByReply(s: State, id: int)
    requires FuturesConsistent(s) && AtPc(s, id, Arrived) && s.handlers[id].key in s.pending
    ensures FuturesConsistent(Do(s, Check(id)))
  {
    var s', key := Do(s, Check(id)), s.handlers[id].key;
    var f := s.pending[key];
    assert Registered(s.handlers, s.futures, key, f);
    forall k | k in s'.pending ensures Registered(s'.handlers, s'.futures, k, s'.pending[k]) {
      assert Registered(s.handlers, s.futures, k, s.pending[k]);
    }
    forall g | 0 <= g < |s'.futures| && s'.futures[g].outcome.Resolved? && s'.futures[g].outcome.who.Reply?
      ensures AnsweredBy(s'.handlers, s'.futures, g, s'.futures[g].outcome.who.handler)
    {
      if g != f {
        assert AnsweredBy(s.handlers, s.futures, g, s.futures[g].outcome.who.handler);
      }
    }
  }

  lemma FuturesKeptByRegister(s: State, id: int)
    requires FuturesConsistent(s) && id in s.handlers && s.handlers[id].pc.Asking?
    ensures FuturesConsistent(Do(s, Register(id)))
  {
    var s' := Do(s, Register(id));
    forall key | key in s'.pending ensures Registered(s'.handlers, s'.futures, key, s'.pending[key]) {
      if key != s.handlers[id].key {
        assert Registered(s.handlers, s.futures, key, s.pending[key]);
      }
    }
    forall f | 0 <= f < |s'.futures| && s'.futures[f].outcome.Resolved? && s'.futures[f].outcome.who.Reply?
      ensures AnsweredBy(s'.handlers, s'.futures, f, s'.futures[f].outcome.who.handler)
    {
      assert AnsweredBy(s.handlers, s.futures, f, s.futures[f].outcome.who.handler);
    }
  }

  lemma FuturesKeptByResume(s: State, id: int)
    requires FuturesConsistent(s) && Enabled(s, Resume(id))
    ensures FuturesConsistent(Do(s, Resume(id)))
  {
    var s' := Do(s, Resume(id));
    forall key | key in s'.pending ensures Registered(s'.handlers, s'.futures, key, s'.pending[key]) {
      assert Registered(s.handlers, s.futures, key, s.pending[key]);
    }
    forall f | 0 <= f < |s'.futures| && s'.futures[f].outcome.Resolved? && s'.futures[f].outcome.who.Reply?
      ensures AnsweredBy(s'.handlers, s'.futures, f, s'.futures[f].outcome.who.handler)
    {
      assert AnsweredBy(s.handlers, s.futures, f, s.futures[f].outcome.who.handler);
    }
  }

  lemma FuturesKeptByStop(s: State)
    requires FuturesConsistent(s)
    ensures FuturesConsistent(Do(s, Stop))
  {
    var s' := Do(s, Stop);
    forall f | 0 <= f < |s'.futures| && s'.futures[f].outcome.Resolved? && s'.futures[f].outcome.who.Reply?
      ensures AnsweredBy(s'.handlers, s'.futures, f, s'.futures[f].outcome.who.handler)
    {
      assert s'.futures[f] == s.futures[f];
      assert AnsweredBy(s.handlers, s.futures, f, s.futures[f].outcome.who.handler);
    }
  }

  /** Once resolved, a future keeps its decision; none is resolved twice. */
  ghost predicate OutcomesKept(before: seq<Future>, after: seq<Future>) {
    |before| <= |after| &&
    forall f :: 0 <= f < |before| && before[f].outcome.Resolved? ==> after[f] == before[f]
  }

  lemma StepKeepsFutures(s: State, step: Step)
    requires FuturesConsistent(s) && Enabled(s, step)
    ensures FuturesConsistent(Do(s, step)) && OutcomesKept(s.futures, Do(s, step).futures)
  {
    if step.Check? && s.handlers[step.id].key in s.pending {
      assert Registered(s.handlers, s.futures, s.handlers[step.id].key, s.pending[s.handlers[step.id].key]);
      FuturesKeptByReply(s, step.id);
    } else if step.Register? {
      FuturesKeptByRegister(s, step.id);
    } else if step.Resume? {
      FuturesKeptByResume(s, step.id);
    } else if step.Stop? {
      FuturesKeptByStop(s);
    } else {
      OnlyOneMoves(s, step);
      FuturesKeptByOtherStep(s, Do(s, step), step.id, Do(s, step).handlers[step.id]);
    }
  }

  /** Over every run each future is resolved at most once, by a message that did nothing else, or by the shutdown. */
  lemma {:induction false} RunKeepsFutures(s: State, steps: seq<Step>)
    requires FuturesConsistent(s) && IsRun(s, steps)
    ensures FuturesConsistent(Exec(s, steps)) && OutcomesKept(s.futures, Exec(s, steps).futures)
    decreases |steps|
  {
    if |steps| > 0 {
      StepKeepsFutures(s, steps[0]);
      RunKeepsFutures(Do(s, steps[0]), steps[1..]);
    }
  }

  /** A message that answered a permission request never takes another step: it starts no turn and takes no lock. */
  lemma {:induction false} RepliersStayPut(s: State, steps: seq<Step>, id: int, f: nat)
    requires IsRun(s, steps) && AtPc(s, id, Replied(f))
    ensures AtPc(Exec(s, steps), id, Replied(f))
    decreases |steps|
  {
    if |steps| > 0 {
      RepliersStayPut(Do(s, steps[0]), steps[1..], id, f);
    }
  }

  // ----- One request at a time

  predicate RequestsPermission(pc: Pc) {
    pc.Asking? || pc.Waiting?
  }

  /** The premise on the orchestrator: a turn asks only while no other turn of its key is asking or waiting. */
  ghost predicate AsksAlone(s: State, step: Step) {
    step.Ask? && step.id in s.handlers ==>
      forall id :: id in s.handlers && s.handlers[id].key == s.handlers[step.id].key ==>
             !RequestsPermission(s.handlers[id].pc)
  }

  ghost predicate IsPoliteRun(s: State, steps: seq<Step>)
    decreases |steps|
  {
    |steps| > 0 ==> Enabled(s, steps[0]) && AsksAlone(s, steps[0]) && IsPoliteRun(Do(s, steps[0]), steps[1..])
  }

  /** One request per key, and every handler that waits is either registered or already has its answer. */
  ghost predicate NoRequestLost(s: State) {
    && OneRequestPerKey(s.handlers)
    && (forall id :: id in s.handlers && s.handlers[id].pc.Waiting? ==> IsAnswerable(s, id))
  }

  ghost predicate OneRequestPerKey(handlers: map<int, Handler>) {
    forall a, b :: Requests(handlers, a) && Requests(handlers, b) && handlers[a].key == handlers[b].key ==> a == b
  }

  predicate Requests(handlers: map<int, Handler>, id: int) {
    id in handlers && RequestsPermission(handlers[id].pc)
  }

  ghost predicate IsAnswerable(s: State, id: int) {
    id in s.handlers && s.handlers[id].pc.Waiting? && s.handlers[id].pc.future < |s.futures| &&
    (s.futures[s.handlers[id].pc.future].outcome.Resolved? ||
     (s.handlers[id].key in s.pending && s.pending[s.handlers[id].key] == s.handlers[id].pc.future))
  }

  lemma PoliteStepLosesNothing(s: State, step: Step)
    requires FuturesConsistent(s) && NoRequestLost(s) && Enabled(s, step) && AsksAlone(s, step)
    ensures NoRequestLost(Do(s, step))
  {
    var s' := Do(s, step);
    PoliteStepKeepsOneRequest(s, step);
    forall id | id in s'.handlers && s'.handlers[id].pc.Waiting? ensures IsAnswerable(s', id) {
      if id in s.handlers && s.handlers[id].pc.Waiting? {
        assert IsAnswerable(s, id);
        WaiterStaysAnswerable(s, step, id);
      } else {
        NewWaiterIsAnswerable(s, step, id);
      }
    }
  }

  lemma PoliteStepKeepsOneRequest(s: State, step: Step)
    requires OneRequestPerKey(s.handlers) && Enabled(s, step) && AsksAlone(s, step)
    ensures OneRequestPerKey(Do(s, step).handlers)
  {
    if !step.Stop? {
      OnlyOneMoves(s, step);
      if !step.Ask? {
        RequestsAreAsked(s, step);
      }
      var handlers' := Do(s, step).handlers;
      forall a, b | Requests(handlers', a) && Requests(handlers', b) && handlers'[a].key == handlers'[b].key
        ensures a == b {
        if step.Ask? {
          assert a != step.id ==> handlers'[a] == s.handlers[a];
          assert b != step.id ==> handlers'[b] == s.handlers[b];
        } else {
          assert Requests(s.handlers, a) && Requests(s.handlers, b);
        }
      }
    }
  }

  lemma RequestsAreAsked(s: State, step: Step)
    requires Enabled(s, step) && !step.Stop? && !step.Ask?
    ensures Requests(Do(s, step).handlers, step.id) ==> Requests(s.handlers, step.id)
  {
  }

  lemma NewWaiterIsAnswerable(s: State, step: Step, id: int)
    requires Enabled(s, step) && id in Do(s, step).handlers && Do(s, step).handlers[id].pc.Waiting?
    requires !(id in s.handlers && s.handlers[id].pc.Waiting?)
    ensures IsAnswerable(Do(s, step), id)
  {
    assert !step.Stop?;
    OnlyOneMoves(s, step);
    assert step.id == id;
    assert step.Register?;
  }

  lemma WaiterStaysAnswerable(s: State, step: Step, id: int)
    requires FuturesConsistent(s) && NoRequestLost(s) && Enabled(s, step) && AsksAlone(s, step)
    requires IsAnswerable(s, id) && id in Do(s, step).handlers && Do(s, step).handlers[id].pc.Waiting?
    ensures IsAnswerable(Do(s, step), id)
  {
    if step.Check? && s.handlers[step.id].key in s.pending {
      WaiterKeptByReply(s, step.id, id);
    } else if step.Stop? {
      WaiterKeptByStop(s, id);
    } else if step.Register? || step.Resume? {
      assert s.handlers[step.id].key != s.handlers[id].key;
    } else {
      OnlyOneMoves(s, step);
      assert Do(s, step).pending == s.pending && Do(s, step).futures == s.futures;
    }
  }

  lemma WaiterKeptByReply(s: State, other: int, id: int)
    requires FuturesConsistent(s) && IsAnswerable(s, id) && AtPc(s, other, Arrived)
    requires s.handlers[other].key in s.pending
    ensures IsAnswerable(Do(s, Check(other)), id)
  {
    assert Registered(s.handlers, s.futures, s.handlers[other].key, s.pending[s.handlers[other].key]);
  }

  lemma WaiterKeptByStop(s: State, id: int)
    requires FuturesConsistent(s) && IsAnswerable(s, id)
    ensures IsAnswerable(Do(s, Stop), id)
  {
    if !s.futures[s.handlers[id].pc.future].outcome.Resolved? {
      assert s.handlers[id].pc.future in s.pending.Values;
    }
  }

  /** With one outstanding request per key no request is ever lost. */
  lemma {:induction false} PoliteRunLosesNothing(s: State, steps: seq<Step>)
    requires FuturesConsistent(s) && NoRequestLost(s) && IsPoliteRun(s, steps)
    ensures IsRun(s, steps) && FuturesConsistent(Exec(s, steps)) && NoRequestLost(Exec(s, steps))
    decreases |steps|
  {
    if |steps| > 0 {
      StepKeepsFutures(s, steps[0]);
      PoliteStepLosesNothing(s, steps[0]);
      PoliteRunLosesNothing(Do(s, steps[0]), steps[1..]);
    }
  }

  /** In every polite run the next message on a waiting handler's key answers it in one step, whoever holds the lock. */
  lemma ReplyReachesWaiter(table: map<Key, string>, steps: seq<Step>, waiter: int, message: int)
    requires IsPoliteRun(Start(table), steps) && IsRun(Start(table), steps)
    requires var s := Exec(Start(table), steps);
             && waiter in s.handlers && s.handlers[waiter].pc.Waiting?
             && s.handlers[waiter].pc.future < |s.futures| &&
                s.futures[s.handlers[waiter].pc.future].outcome == Unresolved
             && AtPc(s, message, Arrived) && s.handlers[message].key == s.handlers[waiter].key
    ensures var s := Exec(Start(table), steps);
            && Enabled(s, Check(message))
            && var s' := Do(s, Check(message));
               && s'.futures[s.handlers[waiter].pc.future].outcome ==
                  Resolved(Decide(s.handlers[message].text), Reply(message))
               && Enabled(s', Resume(waiter))
  {
    PoliteRunLosesNothing(Start(table), steps);
    assert IsAnswerable(Exec(Start(table), steps), waiter);
  }

  // ----- Requests that are lost

  predicate WaitsUnresolved(s: State, id: int) {
    id in s.handlers && s.handlers[id].pc.Waiting? && s.handlers[id].pc.future < |s.futures| &&
    s.futures[s.handlers[id].pc.future].outcome == Unresolved
  }

  /** Another handler of the key registers its own request, or has its answer and clears the key. */
  predicate Displaces(s: State, step: Step, id: int)
    requires Enabled(s, step)
  {
    (step.Register? || step.Resume?) && id in s.handlers && step.id != id &&
      s.handlers[step.id].key == s.handlers[id].key
  }

  /** A request that could still be answered no longer can exactly when a step displaces it. */
  lemma RequestIsLostIff(s: State, step: Step, id: int)
    requires FuturesConsistent(s) && Enabled(s, step) && WaitsUnresolved(s, id) && IsAnswerable(s, id)
    ensures !IsAnswerable(Do(s, step), id) <==> Displaces(s, step, id)
  {
    if step.Check? && s.handlers[step.id].key in s.pending {
      WaiterKeptByReply(s, step.id, id);
    } else if step.Stop? {
      WaiterKeptByStop(s, id);
    } else {
      OnlyOneMoves(s, step);
    }
  }

  /** It waits without an answer, and no message can give one. */
  ghost predicate IsLost(s: State, id: int) {
    WaitsUnresolved(s, id) && !IsAnswerable(s, id)
  }

  lemma StepKeepsLost(s: State, step: Step, id: int)
    requires FuturesConsistent(s) && Enabled(s, step) && IsLost(s, id)
    ensures IsLost(Do(s, step), id)
  {
    var f := s.handlers[id].pc.future;
    forall key | key in s.pending ensures s.pending[key] != f {
      assert Registered(s.handlers, s.futures, key, s.pending[key]);
    }
    if !step.Stop? {
      OnlyOneMoves(s, step);
    }
  }

  /** No message, no shutdown and nothing else ever answers it. */
  lemma {:induction false} LostForGood(s: State, steps: seq<Step>, id: int)
    requires FuturesConsistent(s) && IsRun(s, steps) && IsLost(s, id)
    ensures IsLost(Exec(s, steps), id)
    decreases |steps|
  {
    if |steps| > 0 {
      StepKeepsFutures(s, steps[0]);
      StepKeepsLost(s, steps[0], id);
      LostForGood(Do(s, steps[0]), steps[1..], id);
    }
  }

  lemma NotWaitingIsNotLost(s: State, step: Step, id: int)
    requires FuturesConsistent(s) && Enabled(s, step) && !WaitsUnresolved(s, id)
    ensures !IsLost(Do(s, step), id)
  {
    if !step.Stop? {
      OnlyOneMoves(s, step);
    }
    if id in Do(s, step).handlers && Do(s, step).handlers[id].pc.Waiting? &&
       !(id in s.handlers && s.handlers[id].pc.Waiting?) {
      NewWaiterIsAnswerable(s, step, id);
    }
  }

  /** Some step of the run displaces a request of this handler that has no answer yet. */
  ghost predicate IsDisplaced(s: State, steps: seq<Step>, id: int)
    requires IsRun(s, steps)
    decreases |steps|
  {
    |steps| > 0 &&
    ((WaitsUnresolved(s, id) && Displaces(s, steps[0], id)) || IsDisplaced(Do(s, steps[0]), steps[1..], id))
  }

  /** Over every run: a handler's request is lost, for good, exactly when it has been displaced. */
  lemma {:induction false} LostIffDisplaced(s: State, steps: seq<Step>, id: int)
    requires FuturesConsistent(s) && IsRun(s, steps) && !IsLost(s, id)
    ensures IsLost(Exec(s, steps), id) <==> IsDisplaced(s, steps, id)
    decreases |steps|
  {
    if |steps| > 0 {
      var s' := Do(s, steps[0]);
      StepKeepsFutures(s, steps[0]);
      LostAfterStepIff(s, steps[0], id);
      if IsLost(s', id) {
        LostForGood(s', steps[1..], id);
      } else {
        LostIffDisplaced(s', steps[1..], id);
      }
    }
  }

  lemma LostAfterStepIff(s: State, step: Step, id: int)
    requires FuturesConsistent(s) && Enabled(s, step) && !IsLost(s, id)
    ensures IsLost(Do(s, step), id) <==> WaitsUnresolved(s, id) && Displaces(s, step, id)
  {
    if WaitsUnresolved(s, id) {
      RequestIsLostIff(s, step, id);
      if Displaces(s, step, id) {
        OnlyOneMoves(s, step);
      }
    } else {
      NotWaitingIsNotLost(s, step, id);
    }
  }

  // ----- Shutdown

  ghost predicate WaitsFor(s: State, id: int, f: nat) {
    id in s.handlers && s.handlers[id].pc.Waiting? && s.handlers[id].pc.future == f && f < |s.futures|
  }

  /** A handler that waits for a future of before has waited for it ever since. */
  lemma {:induction false} WaitedBefore(s: State, steps: seq<Step>, id: int, f: nat)
    requires IsRun(s, steps) && f < |s.futures| && WaitsFor(Exec(s, steps), id, f)
    ensures WaitsFor(s, id, f)
    decreases |steps|
  {
    if |steps| > 0 {
      FuturesOnlyGrow(s, steps[0]);
      WaitedBefore(Do(s, steps[0]), steps[1..], id, f);
      WaitedJustBefore(s, steps[0], id, f);
    }
  }

  lemma FuturesOnlyGrow(s: State, step: Step)
    requires Enabled(s, step)
    ensures |s.futures| <= |Do(s, step).futures|
  {
  }

  lemma WaitedJustBefore(s: State, step: Step, id: int, f: nat)
    requires Enabled(s, step) && f < |s.futures| && WaitsFor(Do(s, step), id, f)
    ensures WaitsFor(s, id, f)
  {
    if !step.Stop? {
      OnlyOneMoves(s, step);
    }
  }

  predicate ReadsNothing(step: Step) {
    !step.Check? && !step.Stop?
  }

  /** The futures from `from` on have no answer. */
  ghost predicate OpenFrom(futures: seq<Future>, from: nat) {
    forall f :: from <= f < |futures| ==> futures[f].outcome == Unresolved
  }

  /** As long as no message is read, futures that are new stay without an answer. */
  lemma {:induction false} NewOnesStayOpen(s: State, steps: seq<Step>, from: nat)
    requires IsRun(s, steps) && OpenFrom(s.futures, from) && forall i :: 0 <= i < |steps| ==> ReadsNothing(steps[i])
    ensures OpenFrom(Exec(s, steps).futures, from)
    decreases |steps|
  {
    if |steps| > 0 {
      assert ReadsNothing(steps[0]);
      assert forall i :: 0 <= i < |steps[1..]| ==> steps[1..][i] == steps[i + 1];
      NewOnesStayOpen(Do(s, steps[0]), steps[1..], from);
    }
  }

  /** A request registered before the shutdown has its answer ever after, exactly when it was not lost. */
  lemma AnsweredByStopIff(before: State, later: seq<Step>, id: int, f: nat)
    requires FuturesConsistent(before) && IsRun(Do(before, Stop), later)
    requires f < |before.futures| && WaitsFor(Exec(Do(before, Stop), later), id, f)
    ensures Enabled(Exec(Do(before, Stop), later), Resume(id)) <==> !IsLost(before, id)
  {
    var stopped := Do(before, Stop);
    StepKeepsFutures(before, Stop);
    if IsLost(before, id) {
      StepKeepsLost(before, Stop, id);
      LostForGood(stopped, later, id);
    } else {
      WaitedBefore(stopped, later, id, f);
      WaiterKeptByStop(before, id);
      RunKeepsFutures(stopped, later);
    }
  }

  /**
   * After a shutdown in a polite run, whatever happens next, no handler is left that waits on a request from before it.
   */
  lemma StopFreesWaiters(table: map<Key, string>, steps: seq<Step>, before: State, later: seq<Step>, waiter: int,
                         f: nat)
    requires IsPoliteRun(Start(table), steps) && IsRun(Start(table), steps) && before == Exec(Start(table), steps)
    requires IsRun(Do(before, Stop), later)
    requires f < |before.futures| && WaitsFor(Exec(Do(before, Stop), later), waiter, f)
    ensures Enabled(Exec(Do(before, Stop), later), Resume(waiter))
  {
    PoliteRunLosesNothing(Start(table), steps);
    AnsweredByStopIff(before, later, waiter, f);
  }

  /** A request that is registered later, after a shutdown say, has no answer as long as no further message is read. */
  lemma LateRequestWaits(stopped: State, later: seq<Step>, waiter: int, f: nat)
    requires IsRun(stopped, later) && forall i :: 0 <= i < |later| ==> ReadsNothing(later[i])
    requires f >= |stopped.futures| && WaitsFor(Exec(stopped, later), waiter, f)
    ensures !Enabled(Exec(stopped, later), Resume(waiter))
  {
    NewOnesStayOpen(stopped, later, |stopped.futures|);
  }

  // ----- Runs that lose a request

  /** Without the premise of one request per key a second one overwrites the first. */
  lemma SecondRequestOverwrites(s: State, first: int, second: int)
    requires FuturesConsistent(s) && first in s.handlers && second in s.handlers
    requires s.handlers[first].pc.Waiting? && s.handlers[second].pc.Asking?
    requires s.handlers[first].key == s.handlers[second].key
    requires s.futures[s.handlers[first].pc.future].outcome == Unresolved
    ensures Enabled(s, Register(second)) && !IsAnswerable(Do(s, Register(second)), first)
  {
  }

  /** Or the first has its answer, and clears the key that the second one is registered under. */
  lemma FirstAnswerRemovesSecond(s: State, first: int, second: int)
    requires FuturesConsistent(s) && Enabled(s, Resume(first)) && WaitsUnresolved(s, second)
    requires s.handlers[first].key == s.handlers[second].key
    ensures IsLost(Do(s, Resume(first)), second)
  {
  }

  lemma {:induction false} ExtendRun(s: State, steps: seq<Step>, step: Step)
    requires IsRun(s, steps) && Enabled(Exec(s, steps), step)
    ensures IsRun(s, steps + [step]) && Exec(s, steps + [step]) == Do(Exec(s, steps), step)
    decreases |steps|
  {
    if |steps| == 0 {
      assert steps + [step] == [step];
      assert Exec(Do(s, step), []) == Do(s, step);
    } else {
      ExtendRun(Do(s, steps[0]), steps[1..], step);
      assert (steps + [step])[1..] == steps[1..] + [step];
    }
  }

  /** One step of a run that is built up from the start. */
  lemma Then(steps: seq<Step>, s: State, step: Step, s': State)
    requires IsRun(Start(map[]), steps) && Exec(Start(map[]), steps) == s && Enabled(s, step) && s' == Do(s, step)
    ensures IsRun(Start(map[]), steps + [step]) && Exec(Start(map[]), steps + [step]) == s'
  {
    ExtendRun(Start(map[]), steps, step);
  }

  /** A message on a key without a session: it creates one and starts its turn. */
  lemma OneTurnIsReachable(key: Key, text: string) returns (steps: seq<Step>)
    ensures IsRun(Start(map[]), steps)
    ensures Exec(Start(map[]), steps) ==
            State(map[1 := Handler(key, text, Turn("session"))], map[key := "session"], map[key := Free], map[], [],
              [key], false)
  {
    var s0 := Start(map[]);
    var s1 := s0.(handlers := map[1 := Handler(key, text, Arrived)]);
    var s2 := s1.(handlers := map[1 := Handler(key, text, Locking)], locks := map[key := Free]);
    var s3 := s2.(handlers := map[1 := Handler(key, text, Creating)], locks := map[key := HeldBy(1)]);
    var s4 := s3.(handlers := map[1 := Handler(key, text, Persisting("session"))], sessions := map[key := "session"],
                  creations := [key]);
    var s5 := s4.(handlers := map[1 := Handler(key, text, Turn("session"))], locks := map[key := Free]);
    Then([], s0, Arrive(1, key, text), s1);
    steps := [] + [Arrive(1, key, text)];
    Then(steps, s1, Check(1), s2);
    steps := steps + [Check(1)];
    Then(steps, s2, Acquire(1), s3);
    steps := steps + [Acquire(1)];
    Then(steps, s3, Created(1, "session"), s4);
    steps := steps + [Created(1, "session")];
    Then(steps, s4, Persisted(1), s5);
    steps := steps + [Persisted(1)];
  }

  /** A second message on the key, in a turn of the same session. */
  lemma TwoTurnsAreReachable(key: Key, text: string) returns (steps: seq<Step>)
    ensures IsRun(Start(map[]), steps)
    ensures Exec(Start(map[]), steps) ==
            State(map[1 := Handler(key, text, Turn("session")), 2 := Handler(key, text, Turn("session"))],
                  map[key := "session"], map[key := Free], map[], [], [key], false)
  {
    steps := OneTurnIsReachable(key, text);
    var s5 := Exec(Start(map[]), steps);
    var s6 := s5.(handlers := s5.handlers[2 := Handler(key, text, Arrived)]);
    var s7 := s5.(handlers := s5.handlers[2 := Handler(key, text, Locking)]);
    var s8 := s5.(handlers := s5.handlers[2 := Handler(key, text, Turn("session"))]);
    Then(steps, s5, Arrive(2, key, text), s6);
    steps := steps + [Arrive(2, key, text)];
    Then(steps, s6, Check(2), s7);
    steps := steps + [Check(2)];
    Then(steps, s7, Acquire(2), s8);
    steps := steps + [Acquire(2)];
  }

  /** Both turns ask before either request is registered, and the first registers. */
  lemma FirstIsRegistered(key: Key, text: string) returns (steps: seq<Step>)
    requires !IsCommand(text)
    ensures IsRun(Start(map[]), steps)
    ensures Exec(Start(map[]), steps) ==
            State(map[1 := Handler(key, text, Waiting("session", 0)), 2 := Handler(key, text, Asking("session"))],
                  map[key := "session"], map[key := Free], map[key := 0], [Future(1, Unresolved)], [key], false)
  {
    steps := TwoTurnsAreReachable(key, text);
    var s8 := Exec(Start(map[]), steps);
    var s9 := Do(s8, Ask(1));
    var s10 := Do(s9, Ask(2));
    Then(steps, s8, Ask(1), s9);
    steps := steps + [Ask(1)];
    Then(steps, s9, Ask(2), s10);
    steps := steps + [Ask(2)];
    Then(steps, s10, Register(1), Do(s10, Register(1)));
    steps := steps + [Register(1)];
  }

  /** If the second then registers as well, the first is lost. */
  lemma OverwriteIsReachable(key: Key, text: string) returns (steps: seq<Step>)
    requires !IsCommand(text)
    ensures IsRun(Start(map[]), steps)
    ensures var s := Exec(Start(map[]), steps);
            && 1 in s.handlers && s.handlers[1].pc.Waiting? && !IsAnswerable(s, 1)
  {
    steps := FirstIsRegistered(key, text);
    var s11 := Exec(Start(map[]), steps);
    Then(steps, s11, Register(2), Do(s11, Register(2)));
    steps := steps + [Register(2)];
  }

  /** If a message comes instead, it answers the first. */
  lemma FirstIsAnswered(key: Key, text: string, reply: string) returns (steps: seq<Step>)
    requires !IsCommand(text)
    ensures IsRun(Start(map[]), steps)
    ensures Exec(Start(map[]), steps) ==
            State(map[1 := Handler(key, text, Waiting("session", 0)), 2 := Handler(key, text, Asking("session")),
                      3 := Handler(key, reply, Replied(0))],
                  map[key := "session"], map[key := Free], map[], [Future(1, Resolved(Decide(reply), Reply(3)))], [key],
                    false)
  {
    steps := FirstIsRegistered(key, text);
    var s11 := Exec(Start(map[]), steps);
    var s12 := s11.(handlers := s11.handlers[3 := Handler(key, reply, Arrived)]);
    Then(steps, s11, Arrive(3, key, reply), s12);
    steps := steps + [Arrive(3, key, reply)];
    Then(steps, s12, Check(3), Do(s12, Check(3)));
    steps := steps + [Check(3)];
  }

  /** The second then registers, and the first handler goes on with its answer: it is the second that is lost. */
  lemma RemovalIsReachable(key: Key, text: string, reply: string) returns (steps: seq<Step>)
    requires !IsCommand(text)
    ensures IsRun(Start(map[]), steps)
    ensures IsLost(Exec(Start(map[]), steps), 2)
  {
    steps := FirstIsAnswered(key, text, reply);
    var s13 := Exec(Start(map[]), steps);
    var s14 := Do(s13, Register(2));
    var s15 := Do(s14, Resume(1));
    Then(steps, s13, Register(2), s14);
    steps := steps + [Register(2)];
    Then(steps, s14, Resume(1), s15);
    steps := steps + [Resume(1)];
    assert s15.pending == map[];
  }
}
