/** Requests over one connection, matched with responses by id, and what is answered to a request nobody answers. */
module AcpClients {

  datatype Outcome =
    | Unsettled
    | Result(value: string)
    | Failure(code: int, message: string)
    | TimedOut
    | NotSent

  datatype Response = ResultOf(value: string) | ErrorOf(code: int, message: string)

  /** What reaches the client: calls of its own user, frames of the kernel, and timers. */
  datatype Event =
    | Request(timed: bool, works: bool)
    | Incoming(id: int, response: Response)
    | Timer(id: int)

  /** The client and the promises it has handed out, by request id. */
  datatype State = State(reqId: nat, pending: set<int>, timers: set<int>, promises: map<int, Outcome>)

  function OutcomeOf(response: Response): Outcome {
    match response
    case ResultOf(value) => Result(value)
    case ErrorOf(code, message) => Failure(code, message)
  }

  /** Settling a promise that is settled already has no effect. */
  function Settle(promises: map<int, Outcome>, id: int, outcome: Outcome): map<int, Outcome> {
    if id in promises && promises[id].Unsettled? then promises[id := outcome] else promises
  }

  function Handle(s: State, event: Event): State {
    match event
    case Request(timed, works) =>
      var id := s.reqId + 1;
      State(id, s.pending + {id}, if timed then s.timers + {id} else s.timers,
            s.promises[id := if works then Unsettled else NotSent])
    case Incoming(id, response) =>
      if id !in s.pending then s
      else State(s.reqId, s.pending - {id}, s.timers - {id}, Settle(s.promises, id, OutcomeOf(response)))
    case Timer(id) =>
      if id !in s.timers then s
      else State(s.reqId, s.pending - {id}, s.timers - {id}, Settle(s.promises, id, TimedOut))
  }

  function HandleAll(s: State, events: seq<Event>): State
    decreases |events|
  {
    if |events| == 0 then s else HandleAll(Handle(s, events[0]), events[1..])
  }

  const START := State(0, {}, {}, map[])

  // ----- The client as an object

  class AcpClient {
    var reqId: nat
    var pending: set<int>
    var timers: set<int>
    var promises: map<int, Outcome>

    function Now(): State
      reads this
    {
      State(reqId, pending, timers, promises)
    }

    constructor ()
      ensures Now() == START
    {
      reqId, pending, timers, promises := 0, {}, {}, map[];
    }

    /** `request`; `works` says whether the frame could be handed to the socket. */
    method SendRequest(timed: bool, works: bool) returns (id: int)
      modifies this
      ensures Now() == Handle(old(Now()), Request(timed, works)) && id == reqId
    {
      reqId := reqId + 1;
      id := reqId;
      promises := promises[id := Unsettled];
      pending := pending + {id};
      if timed {
        timers := timers + {id};
      }
      if !works {
        promises := Settle(promises, id, NotSent);
      }
    }

    /** `routeResponse`. */
    method RouteResponse(id: int, response: Response)
      modifies this
      ensures Now() == Handle(old(Now()), Incoming(id, response))
    {
      if id !in pending {
        return;
      }
      pending := pending - {id};
      match response {
        case ErrorOf(code, message) =>
          timers := timers - {id};
          promises := Settle(promises, id, Failure(code, message));
        case ResultOf(value) =>
          timers := timers - {id};
          promises := Settle(promises, id, Result(value));
      }
    }

    /** The callback of a timer, which runs once, if the timer was not cleared. */
    method TimerFires(id: int)
      modifies this
      ensures Now() == Handle(old(Now()), Timer(id))
    {
      if id !in timers {
        return;
      }
      timers := timers - {id};
      pending := pending - {id};
      promises := Settle(promises, id, TimedOut);
    }
  }

  // ----- Over every interleaving

  ghost predicate IsConsistentAt(s: State, id: int) {
    && (id in s.promises <==> 1 <= id <= s.reqId)
    && (id in s.timers ==> id in s.pending)
    && (id in s.pending ==> id in s.promises && (s.promises[id].Unsettled? || s.promises[id].NotSent?))
    && (id in s.promises && s.promises[id].Unsettled? ==> id in s.pending)
  }

  ghost predicate IsConsistent(s: State) {
    forall id :: IsConsistentAt(s, id)
  }

  lemma HandleKeeps(s: State, event: Event)
    requires IsConsistent(s)
    ensures IsConsistent(Handle(s, event))
  {
    forall id ensures IsConsistentAt(Handle(s, event), id) {
      assert IsConsistentAt(s, id);
    }
  }

  lemma {:induction false} RunKeeps(s: State, events: seq<Event>)
    requires IsConsistent(s)
    ensures IsConsistent(HandleAll(s, events))
    decreases |events|
  {
    if |events| > 0 {
      HandleKeeps(s, events[0]);
      RunKeeps(Handle(s, events[0]), events[1..]);
    }
  }

  /** Whether an event settles a request that waits. */
  predicate Matches(event: Event, id: int, timed: bool) {
    match event
    case Request(_, _) => false
    case Incoming(other, _) => other == id
    case Timer(other) => other == id && timed
  }

  function SettledBy(event: Event): Outcome {
    match event
    case Request(_, _) => Unsettled
    case Incoming(_, response) => OutcomeOf(response)
    case Timer(_) => TimedOut
  }

  /** What a request comes to by the first event that settles it. */
  function FirstMatch(events: seq<Event>, id: int, timed: bool): Outcome {
    if |events| == 0 then Unsettled
    else if Matches(events[0], id, timed) then SettledBy(events[0])
    else FirstMatch(events[1..], id, timed)
  }

  lemma {:induction false} SettledStays(s: State, events: seq<Event>, id: int)
    requires IsConsistent(s) && id in s.promises && !s.promises[id].Unsettled?
    ensures id in HandleAll(s, events).promises && HandleAll(s, events).promises[id] == s.promises[id]
    decreases |events|
  {
    if |events| > 0 {
      HandleKeeps(s, events[0]);
      assert IsConsistentAt(s, id) && IsConsistentAt(s, s.reqId + 1);
      SettledStays(Handle(s, events[0]), events[1..], id);
    }
  }

  lemma {:induction false} WaitsForFirstMatch(s: State, events: seq<Event>, id: int)
    requires IsConsistent(s) && id in s.promises && s.promises[id].Unsettled?
    ensures id in HandleAll(s, events).promises
    ensures HandleAll(s, events).promises[id] == FirstMatch(events, id, id in s.timers)
    decreases |events|
  {
    if |events| > 0 {
      var s' := Handle(s, events[0]);
      HandleKeeps(s, events[0]);
      assert IsConsistentAt(s, id) && IsConsistentAt(s, s.reqId + 1);
      if Matches(events[0], id, id in s.timers) {
        SettledStays(s', events[1..], id);
      } else {
        WaitsForFirstMatch(s', events[1..], id);
      }
    }
  }

  lemma {:induction false} HandleInParts(s: State, a: seq<Event>, b: seq<Event>)
    ensures HandleAll(s, a + b) == HandleAll(HandleAll(s, a), b)
    decreases |a|
  {
    if |a| == 0 {
      assert a + b == b;
    } else {
      HandleInParts(Handle(s, a[0]), a[1..], b);
      assert (a + b)[0] == a[0] && (a + b)[1..] == a[1..] + b;
    }
  }

  /**
   * Over every interleaving of requests, responses with any id and timers: a request is settled once, by the first
   * response with its id or its own timer, whichever comes first, and by nothing else.
   */
  lemma RequestSettlesWithFirstMatch(before: seq<Event>, timed: bool, after: seq<Event>)
    ensures var s, id := HandleAll(START, before + [Request(timed, true)] + after), HandleAll(START, before).reqId + 1;
            id in s.promises && s.promises[id] == FirstMatch(after, id, timed)
  {
    var s, sending := HandleAll(START, before), [Request(timed, true)];
    RunKeeps(START, before);
    HandleInParts(START, before + sending, after);
    HandleInParts(START, before, sending);
    var sent := Handle(s, Request(timed, true));
    assert sending[1..] == [] && HandleAll(s, sending) == sent;
    HandleKeeps(s, Request(timed, true));
    assert IsConsistentAt(s, s.reqId + 1);
    WaitsForFirstMatch(sent, after, s.reqId + 1);
  }

  /** A response with the id, or the timer of the request. */
  ghost predicate IsFor(event: Event, id: int, timed: bool) {
    (event.Incoming? && event.id == id) || (event.Timer? && event.id == id && timed)
  }

  lemma {:induction false} FirstMatchIs(events: seq<Event>, id: int, timed: bool, i: nat)
    requires i <= |events| && forall j :: 0 <= j < i ==> !IsFor(events[j], id, timed)
    requires i < |events| ==> IsFor(events[i], id, timed)
    ensures FirstMatch(events, id, timed) == if i < |events| then SettledBy(events[i]) else Unsettled
  {
    if i > 0 {
      assert !IsFor(events[0], id, timed);
      FirstMatchIs(events[1..], id, timed, i - 1);
    }
  }

  /** A result settles the request as that result, an error as a failure with its code and message. */
  lemma WhatSettles(before: seq<Event>, timed: bool, after: seq<Event>, i: nat)
    requires var id := HandleAll(START, before).reqId + 1;
             && i <= |after| && (forall j :: 0 <= j < i ==> !IsFor(after[j], id, timed))
             && (i < |after| ==> IsFor(after[i], id, timed))
    ensures var s, id := HandleAll(START, before + [Request(timed, true)] + after), HandleAll(START, before).reqId + 1;
            && id in s.promises
            && if i == |after| then s.promises[id] == Unsettled
               else
                 match after[i]
                 case Incoming(_, ResultOf(value)) => s.promises[id] == Result(value)
                 case Incoming(_, ErrorOf(code, message)) => s.promises[id] == Failure(code, message)
                 case Timer(_) => s.promises[id] == TimedOut
                 case Request(_, _) => false
  {
    var id := HandleAll(START, before).reqId + 1;
    RequestSettlesWithFirstMatch(before, timed, after);
    FirstMatchIs(after, id, timed, i);
  }

  ghost predicate AllSendsWork(events: seq<Event>) {
    forall i :: 0 <= i < |events| && events[i].Request? ==> events[i].works
  }

  ghost predicate NoneFailed(s: State) {
    forall id :: id in s.promises ==> !s.promises[id].NotSent?
  }

  lemma {:induction false} NoneFails(s: State, events: seq<Event>)
    requires IsConsistent(s) && AllSendsWork(events) && NoneFailed(s)
    ensures NoneFailed(HandleAll(s, events))
    decreases |events|
  {
    if |events| > 0 {
      HandleKeeps(s, events[0]);
      NoneFails(Handle(s, events[0]), events[1..]);
    }
  }

  /** The pending table holds the ids of the unsettled requests; of those whose send failed it may hold some too. */
  lemma PendingAreUnsettled(events: seq<Event>, id: int)
    ensures var s := HandleAll(START, events);
            && (id in s.promises && s.promises[id].Unsettled? ==> id in s.pending)
            && (id in s.pending ==> id in s.promises && (s.promises[id].Unsettled? || s.promises[id].NotSent?))
            && (AllSendsWork(events) ==> (id in s.pending <==> id in s.promises && s.promises[id].Unsettled?))
  {
    RunKeeps(START, events);
    assert IsConsistentAt(HandleAll(START, events), id);
    if AllSendsWork(events) {
      NoneFails(START, events);
    }
  }

  /** A request that could not be sent is settled at once, but stays in the table until something with its id comes. */
  lemma FailedSendStaysPending(before: seq<Event>, timed: bool)
    ensures var s, id := HandleAll(START, before + [Request(timed, false)]), HandleAll(START, before).reqId + 1;
            id in s.pending && id in s.promises && s.promises[id].NotSent?
  {
    var sending := [Request(timed, false)];
    HandleInParts(START, before, sending);
    assert sending[1..] == [];
  }

  lemma {:induction false} GoneStaysGone(s: State, events: seq<Event>, id: int)
    requires IsConsistent(s) && id in s.promises && id !in s.pending
    ensures id !in HandleAll(s, events).pending
    decreases |events|
  {
    if |events| > 0 {
      HandleKeeps(s, events[0]);
      assert IsConsistentAt(s, id) && IsConsistentAt(s, s.reqId + 1);
      GoneStaysGone(Handle(s, events[0]), events[1..], id);
    }
  }

  /** The entry of a failed send leaves the table with the first event that would have settled the request. */
  lemma {:induction false} FailedSendLeavesIff(s: State, events: seq<Event>, id: int)
    requires IsConsistent(s) && id in s.pending && id in s.promises && s.promises[id].NotSent?
    ensures id in HandleAll(s, events).pending <==> FirstMatch(events, id, id in s.timers).Unsettled?
    decreases |events|
  {
    if |events| > 0 {
      var s' := Handle(s, events[0]);
      HandleKeeps(s, events[0]);
      assert IsConsistentAt(s, id) && IsConsistentAt(s, s.reqId + 1);
      if Matches(events[0], id, id in s.timers) {
        GoneStaysGone(s', events[1..], id);
      } else {
        FailedSendLeavesIff(s', events[1..], id);
      }
    }
  }

  ghost predicate IsExactAt(s: State, id: int) {
    id in s.pending <==> id in s.promises && s.promises[id].Unsettled?
  }

  /** The id of the request that event `k` is. */
  function IdAt(events: seq<Event>, k: nat): nat
    requires k < |events|
  {
    HandleAll(START, events[..k]).reqId + 1
  }

  /** Event `k` is a request that could not be sent, and no later event is a response to it or its timer. */
  ghost predicate IsLeftOver(events: seq<Event>, k: nat)
    requires k < |events|
  {
    events[k].Request? && !events[k].works && FirstMatch(events[k + 1..], IdAt(events, k), events[k].timed).Unsettled?
  }

  /** Of one request: the table is exact at its id unless it is left over. */
  lemma ExactAtRequestIff(events: seq<Event>, k: nat)
    requires k < |events| && events[k].Request?
    ensures var id := IdAt(events, k);
            id in HandleAll(START, events).promises &&
              (IsExactAt(HandleAll(START, events), id) <==> !IsLeftOver(events, k))
  {
    var s, id, after := HandleAll(START, events[..k]), IdAt(events, k), events[k + 1..];
    var sent := Handle(s, events[k]);
    RunKeeps(START, events[..k]);
    RunKeeps(START, events);
    HandleKeeps(s, events[k]);
    EventBetween(events, k);
    assert IsConsistentAt(HandleAll(START, events), id) && IsConsistentAt(s, id) && IsConsistentAt(sent, id);
    if events[k].works {
      WaitsForFirstMatch(sent, after, id);
      MatchSettles(after, id, events[k].timed);
    } else {
      SettledStays(sent, after, id);
      FailedSendLeavesIff(sent, after, id);
    }
  }

  lemma EventBetween(events: seq<Event>, k: nat)
    requires k < |events|
    ensures HandleAll(START, events) == HandleAll(Handle(HandleAll(START, events[..k]), events[k]), events[k + 1..])
  {
    HandleInParts(START, events[..k], events[k..]);
    assert events == events[..k] + events[k..];
  }

  lemma {:induction false} MatchSettles(events: seq<Event>, id: int, timed: bool)
    ensures !FirstMatch(events, id, timed).NotSent?
  {
    if |events| > 0 {
      MatchSettles(events[1..], id, timed);
    }
  }

  /** Each id that was handed out is that of some request. */
  lemma {:induction false} RequestOfId(events: seq<Event>, id: int) returns (k: nat)
    requires 1 <= id <= HandleAll(START, events).reqId
    ensures k < |events| && events[k].Request? && IdAt(events, k) == id
  {
    assert events[..|events|] == events;
    var n := |events| - 1;
    assert |events| > 0;
    HandleInParts(START, events[..n], [events[n]]);
    assert events == events[..n] + [events[n]] && [events[n]][1..] == [];
    if id <= HandleAll(START, events[..n]).reqId {
      k := RequestOfId(events[..n], id);
      assert events[..n][..k] == events[..k];
    } else {
      k := n;
    }
  }

  /**
   * Over every run the table holds exactly the ids of the unsettled requests, unless some request could not be sent
   * and neither a response to it nor its timer came afterwards.
   */
  lemma TableIsExactIff(events: seq<Event>)
    ensures (forall id :: IsExactAt(HandleAll(START, events), id)) <==>
            !exists k :: 0 <= k < |events| && IsLeftOver(events, k)
  {
    var s := HandleAll(START, events);
    RunKeeps(START, events);
    if k :| 0 <= k < |events| && IsLeftOver(events, k) {
      ExactAtRequestIff(events, k);
      assert !IsExactAt(s, IdAt(events, k));
    } else {
      forall id ensures IsExactAt(s, id) {
        assert IsConsistentAt(s, id);
        if id in s.promises {
          var k := RequestOfId(events, id);
          ExactAtRequestIff(events, k);
        }
      }
    }
  }

  // ----- Refusing when nobody answers

  datatype PermissionOption = PermissionOption(optionId: string, kind: string)

  datatype Decision = Selected(optionId: string) | Cancelled

  const REJECT := "reject"
  const DENY := "deny"

  predicate KindRefuses(o: PermissionOption) {
    REJECT <= o.kind
  }

  predicate IdRefuses(o: PermissionOption) {
    REJECT <= o.optionId
  }

  predicate IsDeny(o: PermissionOption) {
    o.optionId == DENY
  }

  function FindOption(options: seq<PermissionOption>, wanted: PermissionOption -> bool): (i: nat)
    ensures i <= |options| && (i < |options| ==> wanted(options[i]))
  {
    if |options| == 0 || wanted(options[0]) then 0 else 1 + FindOption(options[1..], wanted)
  }

  /** `failClosedPermissionResult`. */
  function FailClosed(options: seq<PermissionOption>): Decision {
    var byKind := FindOption(options, KindRefuses);
    var byId := FindOption(options, IdRefuses);
    var deny := FindOption(options, IsDeny);
    if byKind < |options| then Selected(options[byKind].optionId)
    else if byId < |options| then Selected(options[byId].optionId)
    else if deny < |options| then Selected(options[deny].optionId)
    else Cancelled
  }

  predicate IsRefusal(o: PermissionOption) {
    KindRefuses(o) || IdRefuses(o) || IsDeny(o)
  }

  lemma {:induction false} FindOptionFinds(options: seq<PermissionOption>, wanted: PermissionOption -> bool)
    ensures FindOption(options, wanted) == |options| <==> forall o :: o in options ==> !wanted(o)
    ensures forall j :: 0 <= j < FindOption(options, wanted) ==> !wanted(options[j])
  {
    if |options| > 0 && !wanted(options[0]) {
      FindOptionFinds(options[1..], wanted);
      assert options == [options[0]] + options[1..];
    } else {
      assert |options| > 0 ==> options[0] in options;
    }
  }

  /** Without an answer only a refusal is ever selected, and the request is cancelled exactly when it offers none. */
  lemma FailClosedRefuses(options: seq<PermissionOption>)
    ensures FailClosed(options).Cancelled? <==> forall o :: o in options ==> !IsRefusal(o)
    ensures FailClosed(options).Selected? ==>
              exists o :: o in options && IsRefusal(o) && o.optionId == FailClosed(options).optionId
  {
    FindOptionFinds(options, KindRefuses);
    FindOptionFinds(options, IdRefuses);
    FindOptionFinds(options, IsDeny);
  }

  predicate StartsWithReject(s: string) {
    |s| >= 6 && s[0] == 'r' && s[1] == 'e' && s[2] == 'j' && s[3] == 'e' && s[4] == 'c' && s[5] == 't'
  }

  predicate KindRejects(o: PermissionOption) {
    StartsWithReject(o.kind)
  }

  predicate IdRejects(o: PermissionOption) {
    StartsWithReject(o.optionId)
  }

  ghost predicate NoneMeets(options: seq<PermissionOption>, wanted: PermissionOption -> bool) {
    forall o :: o in options ==> !wanted(o)
  }

  /** `i` is the first place of an option that meets the test. */
  ghost predicate IsFirst(options: seq<PermissionOption>, wanted: PermissionOption -> bool, i: nat) {
    i < |options| && wanted(options[i]) && forall j :: 0 <= j < i ==> !wanted(options[j])
  }

  lemma {:induction false} FindOptionIs(options: seq<PermissionOption>, found: PermissionOption -> bool,
                                        wanted: PermissionOption -> bool)
    requires forall o :: found(o) == wanted(o)
    ensures FindOption(options, found) < |options| ==> IsFirst(options, wanted, FindOption(options, found))
    ensures FindOption(options, found) == |options| <==> NoneMeets(options, wanted)
  {
    FindOptionFinds(options, found);
  }

  /**
   * The first option whose kind rejects is taken; without one, the first whose id does; without one, the one to deny.
   */
  lemma FailClosedPrefersKind(options: seq<PermissionOption>, i: nat)
    ensures IsFirst(options, KindRejects, i) ==> FailClosed(options) == Selected(options[i].optionId)
    ensures NoneMeets(options, KindRejects) && IsFirst(options, IdRejects, i) ==>
            FailClosed(options) == Selected(options[i].optionId)
    ensures NoneMeets(options, KindRejects) && NoneMeets(options, IdRejects) ==>
            FailClosed(options) ==
            if exists o :: o in options && o.optionId == "deny" then Selected("deny") else Cancelled
  {
    forall o: PermissionOption ensures KindRefuses(o) == KindRejects(o) && IdRefuses(o) == IdRejects(o) {
      PrefixIs(o.kind);
      PrefixIs(o.optionId);
    }
    FindOptionIs(options, KindRefuses, KindRejects);
    FindOptionIs(options, IdRefuses, IdRejects);
    FindOptionFinds(options, IsDeny);
  }

  lemma PrefixIs(s: string)
    ensures REJECT <= s <==> StartsWithReject(s)
  {
    var word := "reject";
    assert word <= s <==> |s| >= 6 && forall k :: 0 <= k < 6 ==> s[k] == word[k];
    assert word[0] == 'r' && word[1] == 'e' && word[2] == 'j' && word[3] == 'e' && word[4] == 'c' && word[5] == 't';
  }
}
