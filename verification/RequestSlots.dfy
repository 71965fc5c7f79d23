/**
 * In-flight request slots and the shutdown that waits for them. Every event is one atomic operation
 * of one thread: a run is any interleaving of arriving requests, pre-sending callbacks (repeated or
 * concurrent), the shutdown signal, and the drain check of the event loop.
 */
module RequestSlots {
  import opened Outcomes

  /** `ProcessRuntimeState` as a single thread sees it. */
  class ProcessRuntimeState {
    const includesApi: bool
    var initialized: bool
    var draining: bool
    var workerAccepting: bool
    var inflight: nat

    constructor (includesApi: bool)
      ensures this.includesApi == includesApi && !initialized && !draining && !workerAccepting && inflight == 0
    {
      this.includesApi := includesApi;
      initialized, draining, workerAccepting, inflight := false, false, false, 0;
    }

    predicate CanAcceptBusinessRequest()
      reads this
    {
      includesApi && initialized && !draining
    }

    /** True for the first caller only. */
    method BeginDrain() returns (first: bool)
      modifies this`draining, this`workerAccepting
      ensures draining && !workerAccepting && (first <==> !old(draining))
    {
      first := !draining;
      draining := true;
      workerAccepting := false;
    }

    method ReleaseBusinessRequest()
      modifies this`inflight
      ensures inflight == if old(inflight) > 0 then old(inflight) - 1 else 0
    {
      if inflight > 0 {
        inflight := inflight - 1;
      }
    }

    /** `drainArrives`: another thread begins the drain between the increment and the second check. */
    method TryAcquireBusinessRequest(drainArrives: bool) returns (ok: bool)
      modifies this`inflight, this`draining, this`workerAccepting
      ensures ok <==> includesApi && initialized && !old(draining) && !drainArrives
      ensures inflight == old(inflight) + if ok then 1 else 0
      ensures draining <==> old(draining) || (includesApi && initialized && drainArrives)
      ensures ok || !drainArrives ==> workerAccepting == old(workerAccepting)
    {
      if !CanAcceptBusinessRequest() {
        return false;
      }
      inflight := inflight + 1;
      if drainArrives {
        var _ := BeginDrain();
      }
      if CanAcceptBusinessRequest() {
        return true;
      }
      ReleaseBusinessRequest();
      return false;
    }
  }

  /**
   * Where a request stands. The two availability checks of an acquisition load two flags each;
   * `again` tells the check after the increment from the one before it. An acquired slot is marked on
   * the request before the handlers run. A release is a compare-and-swap loop that has loaded `current`.
   */
  datatype Phase =
    | LoadInitialized(again: bool)
    | LoadDraining(again: bool)
    | Increment
    | Releasing(admitted: bool, current: Option<nat>)
    | Acquired
    | Admitted
    | Sent
    | Rejected
    | Operational

  /** `marker` is the request's atomic flag, once it has one: whether a callback has claimed the release. */
  datatype Request = Request(phase: Phase, marker: Option<bool>, acquired: nat, released: nat)

  datatype Shutdown =
    | Running
    | Waiting(deadline: int, apiDrained: Option<bool>)
    | QuitDrained
    | QuitAtDeadline(deadline: int, now: int)
    | QuitWithoutLoop

  datatype System = System(
    includesApi: bool,
    initialized: bool,
    draining: bool,
    inflight: nat,
    requests: map<nat, Request>,
    shutdown: Shutdown)

  datatype Event =
    | Initialize
    | Arrive(id: nat, operational: bool)
    | Advance(id: nat, spurious: bool)
    | PreSend(id: nat)
    | Signal(now: int, timeout: nat, hasLoop: bool)
    | LoadInflight
    | Decide(now: int, workerDrained: bool, schedulerDrained: bool)

  /** One turn of the release loop; a weak compare-and-swap may fail without cause. */
  function ReleaseTurn(inflight: nat, request: Request, spurious: bool): (nat, Request)
    requires request.phase.Releasing?
  {
    var done := request.(phase := if request.phase.admitted then Sent else Rejected);
    match request.phase.current
    case None => (inflight, request.(phase := request.phase.(current := Some(inflight))))
    case Some(current) =>
      if current == 0 then (inflight, done)
      else if current == inflight && !spurious then (inflight - 1, done.(released := request.released + 1))
      else (inflight, request.(phase := request.phase.(current := Some(inflight))))
  }

  /** The next atomic operation of the pre-routing advice or of a release in progress. */
  function AdvanceRequest(s: System, request: Request, spurious: bool): (nat, Request) {
    match request.phase
    case LoadInitialized(again) =>
      if s.includesApi && s.initialized then (s.inflight, request.(phase := LoadDraining(again)))
      else (s.inflight, request.(phase := if again then Releasing(false, None) else Rejected))
    case LoadDraining(again) =>
      if !s.draining then (s.inflight, request.(phase := if again then Acquired else Increment))
      else (s.inflight, request.(phase := if again then Releasing(false, None) else Rejected))
    case Increment =>
      (s.inflight + 1, request.(phase := LoadInitialized(true), acquired := request.acquired + 1))
    case Acquired => (s.inflight, request.(phase := Admitted, marker := Some(false)))
    case Releasing(_, _) => ReleaseTurn(s.inflight, request, spurious)
    case _ => (s.inflight, request)
  }

  /** A pre-sending callback exchanges the marker, and releases if it was the first to do so. */
  function CallBack(request: Request): Request {
    if request.marker.None? then request
    else if request.marker.value then request
    else request.(marker := Some(true), phase := Releasing(true, None))
  }

  function NewRequest(operational: bool): Request {
    Request(if operational then Operational else LoadInitialized(false), None, 0, 0)
  }

  /** What the signal and the two halves of the loop's drain check do. */
  function ShutdownAfter(s: System, event: Event): Shutdown {
    if event.Signal? then
      if s.draining then s.shutdown
      else if event.hasLoop then Waiting(event.now + event.timeout, None)
      else QuitWithoutLoop
    else if !s.shutdown.Waiting? then s.shutdown
    else if event.LoadInflight? then
      if s.shutdown.apiDrained.None? then s.shutdown.(apiDrained := Some(s.inflight == 0)) else s.shutdown
    else if event.Decide? && s.shutdown.apiDrained.Some? then
      var drained := s.shutdown.apiDrained.value && event.workerDrained && event.schedulerDrained;
      if event.now >= s.shutdown.deadline && !drained then QuitAtDeadline(s.shutdown.deadline, event.now)
      else if drained then QuitDrained
      else s.shutdown.(apiDrained := None)
    else s.shutdown
  }

  function Next(s: System, event: Event): System {
    match event
    case Initialize => s.(initialized := true)
    case Arrive(id, operational) =>
      if id in s.requests then s
      else s.(requests := s.requests[id := NewRequest(operational)])
    case Advance(id, spurious) =>
      if id !in s.requests then s
      else
        var (inflight, request) := AdvanceRequest(s, s.requests[id], spurious);
        s.(inflight := inflight, requests := s.requests[id := request])
    case PreSend(id) =>
      if id !in s.requests then s
      else s.(requests := s.requests[id := CallBack(s.requests[id])])
    case Signal(_, _, _) => s.(draining := true, shutdown := ShutdownAfter(s, event))
    case LoadInflight => s.(shutdown := ShutdownAfter(s, event))
    case Decide(_, _, _) => s.(shutdown := ShutdownAfter(s, event))
  }

  function Start(includesApi: bool): System {
    System(includesApi, false, false, 0, map[], Running)
  }

  function Execute(initial: System, events: seq<Event>): System {
    if events == [] then initial
    else Next(Execute(initial, events[..|events| - 1]), events[|events| - 1])
  }

  /** The request has incremented the counter and not yet decremented it. */
  predicate Owns(request: Request) {
    match request.phase
    case LoadInitialized(again) => again
    case LoadDraining(again) => again
    case Increment => false
    case Releasing(_, _) => true
    case Acquired => true
    case Admitted => true
    case Sent => false
    case Rejected => false
    case Operational => false
  }

  function Owners(requests: map<nat, Request>): set<nat> {
    set id | id in requests && Owns(requests[id])
  }

  /** Before the increment. */
  predicate Fresh(phase: Phase) {
    (phase.LoadInitialized? && !phase.again) || (phase.LoadDraining? && !phase.again) || phase.Increment?
  }

  /** Acquired at most once, released at most once and only after that, never while operational. */
  predicate Balanced(request: Request) {
    && request.released <= request.acquired <= 1
    && (Owns(request) <==> request.acquired == request.released + 1)
    && (Fresh(request.phase) || request.phase.Operational? ==> request.acquired == 0)
    && (request.phase.Sent? ==> request.acquired == 1 == request.released)
  }

  /** The marker's value against where its request stands. */
  predicate MarkerAgrees(request: Request) {
    && (request.marker.Some? <==>
         request.phase.Admitted? || request.phase.Sent? || (request.phase.Releasing? && request.phase.admitted))
    && (request.marker.Some? ==> (request.marker.value <==> !request.phase.Admitted?))
  }

  /** A response was promised: the request is admitted and its slot is not yet free. */
  predicate Unsent(request: Request) {
    request.phase.Acquired? || request.phase.Admitted? || (request.phase.Releasing? && request.phase.admitted)
  }

  /** The event loop has seen the counter at zero since the drain began, or has quit on that. */
  predicate SeenDrained(s: System) {
    s.shutdown.QuitDrained? || (s.shutdown.Waiting? && s.shutdown.apiDrained.Some? && s.shutdown.apiDrained.value)
  }

  /** What the invariant says of one request. */
  predicate Sane(seenDrained: bool, request: Request) {
    && Balanced(request)
    && MarkerAgrees(request)
    && (request.phase.Releasing? && request.phase.current.Some? ==> request.phase.current.value > 0)
    && (seenDrained ==> !Unsent(request))
  }

  ghost predicate Invariant(s: System) {
    && s.inflight == |Owners(s.requests)|
    && (forall id :: id in s.requests ==> Sane(SeenDrained(s), s.requests[id]))
    && (s.shutdown != Running ==> s.draining)
  }

  lemma SizeWithout(ids: set<nat>, id: nat)
    ensures |ids| == |ids - {id}| + if id in ids then 1 else 0
  {
    if id in ids {
      assert ids == (ids - {id}) + {id};
    } else {
      assert ids == ids - {id};
    }
  }

  /** Replacing one request changes the number of owners by what that request changes. */
  lemma OwnersChange(requests: map<nat, Request>, id: nat, request: Request)
    ensures |Owners(requests[id := request])| ==
      |Owners(requests)| + (if Owns(request) then 1 else 0) - (if id in requests && Owns(requests[id]) then 1 else 0)
  {
    var after := Owners(requests[id := request]);
    assert after - {id} == Owners(requests) - {id};
    SizeWithout(after, id);
    SizeWithout(Owners(requests), id);
  }

  lemma OwnerCounts(requests: map<nat, Request>, id: nat)
    requires id in requests && Owns(requests[id])
    ensures |Owners(requests)| >= 1
  {
    SizeWithout(Owners(requests), id);
  }

  lemma ReleaseTurnKeeps(seenDrained: bool, inflight: nat, request: Request, spurious: bool)
    requires Sane(seenDrained, request) && request.phase.Releasing? && inflight >= 1
    ensures var (inflight', request') := ReleaseTurn(inflight, request, spurious);
      && Sane(seenDrained, request')
      && inflight' - inflight == (if Owns(request') then 1 else 0) - 1
  {
  }

  /** The operation keeps the request sane, and changes the counter by what the request gains or loses. */
  predicate Keeps(s: System, request: Request, inflight: nat, request': Request) {
    && Sane(SeenDrained(s), request')
    && inflight - s.inflight == (if Owns(request') then 1 else 0) - (if Owns(request) then 1 else 0)
  }

  lemma CheckTurnKeeps(s: System, request: Request, spurious: bool)
    requires Sane(SeenDrained(s), request) && (SeenDrained(s) ==> s.draining)
    requires request.phase.LoadInitialized? || request.phase.LoadDraining?
    ensures var (inflight, request') := AdvanceRequest(s, request, spurious); Keeps(s, request, inflight, request')
  {
  }

  lemma SlotTurnKeeps(s: System, request: Request, spurious: bool)
    requires Sane(SeenDrained(s), request)
    requires request.phase.Increment? || request.phase.Acquired?
    ensures var (inflight, request') := AdvanceRequest(s, request, spurious); Keeps(s, request, inflight, request')
  {
    if request.phase.Increment? {
      assert Fresh(request.phase) && request.acquired == 0 == request.released;
    } else {
      assert Owns(request) && request.acquired == 1;
    }
  }

  /** One atomic operation of one request, its effect on the counter, and what it keeps. */
  lemma AdvanceRequestKeeps(s: System, request: Request, spurious: bool)
    requires Sane(SeenDrained(s), request) && (Owns(request) ==> s.inflight >= 1) && (SeenDrained(s) ==> s.draining)
    ensures var (inflight, request') := AdvanceRequest(s, request, spurious); Keeps(s, request, inflight, request')
  {
    if request.phase.Releasing? {
      ReleaseTurnKeeps(SeenDrained(s), s.inflight, request, spurious);
    } else if request.phase.LoadInitialized? || request.phase.LoadDraining? {
      CheckTurnKeeps(s, request, spurious);
    } else if request.phase.Increment? || request.phase.Acquired? {
      SlotTurnKeeps(s, request, spurious);
    }
  }

  /** One request moves on, together with the counter. */
  lemma ReplaceKeeps(s: System, id: nat, inflight: nat, request: Request)
    requires Invariant(s) && Sane(SeenDrained(s), request)
    requires inflight - s.inflight ==
      (if Owns(request) then 1 else 0) - (if id in s.requests && Owns(s.requests[id]) then 1 else 0)
    ensures Invariant(s.(inflight := inflight, requests := s.requests[id := request]))
  {
    OwnersChange(s.requests, id, request);
  }

  lemma AdvanceKeeps(s: System, id: nat, spurious: bool)
    requires Invariant(s) && id in s.requests
    ensures Invariant(Next(s, Advance(id, spurious)))
  {
    var request := s.requests[id];
    assert Sane(SeenDrained(s), request);
    if Owns(request) {
      OwnerCounts(s.requests, id);
    }
    AdvanceRequestKeeps(s, request, spurious);
    var (inflight, request') := AdvanceRequest(s, request, spurious);
    ReplaceKeeps(s, id, inflight, request');
  }

  lemma CallBackKeeps(seenDrained: bool, request: Request)
    requires Sane(seenDrained, request)
    ensures Sane(seenDrained, CallBack(request)) && (Owns(CallBack(request)) <==> Owns(request))
  {
  }

  lemma PreSendKeeps(s: System, id: nat)
    requires Invariant(s)
    ensures Invariant(Next(s, PreSend(id)))
  {
    if id in s.requests {
      assert Sane(SeenDrained(s), s.requests[id]);
      CallBackKeeps(SeenDrained(s), s.requests[id]);
      ReplaceKeeps(s, id, s.inflight, CallBack(s.requests[id]));
    }
  }

  lemma LoadKeeps(s: System)
    requires Invariant(s)
    ensures Invariant(Next(s, LoadInflight))
  {
    if s.inflight == 0 {
      assert Owners(s.requests) == {};
      forall id | id in s.requests ensures !Unsent(s.requests[id]) {
        assert id !in Owners(s.requests);
      }
    }
  }

  lemma ArriveKeeps(s: System, id: nat, operational: bool)
    requires Invariant(s)
    ensures Invariant(Next(s, Arrive(id, operational)))
  {
    if id !in s.requests {
      ReplaceKeeps(s, id, s.inflight, NewRequest(operational));
    }
  }

  /** The signal and the end of a check change no request. */
  lemma ShutdownKeeps(s: System, event: Event)
    requires Invariant(s) && (event.Signal? || event.Decide? || event.Initialize?)
    ensures Invariant(Next(s, event))
  {
    assert SeenDrained(Next(s, event)) ==> SeenDrained(s);
  }

  lemma NextKeeps(s: System, event: Event)
    requires Invariant(s)
    ensures Invariant(Next(s, event))
  {
    match event {
      case Arrive(id, operational) => ArriveKeeps(s, id, operational);
      case Advance(id, spurious) =>
        if id in s.requests {
          AdvanceKeeps(s, id, spurious);
        }
      case PreSend(id) => PreSendKeeps(s, id);
      case LoadInflight => LoadKeeps(s);
      case Initialize => ShutdownKeeps(s, event);
      case Signal(_, _, _) => ShutdownKeeps(s, event);
      case Decide(_, _, _) => ShutdownKeeps(s, event);
    }
  }

  /** In every interleaving the invariant holds: the counter is the number of slots held. */
  lemma {:induction false} RunsKeepInvariant(includesApi: bool, events: seq<Event>)
    ensures Invariant(Execute(Start(includesApi), events))
  {
    if events == [] {
      assert Owners(map[]) == {};
    } else {
      RunsKeepInvariant(includesApi, events[..|events| - 1]);
      NextKeeps(Execute(Start(includesApi), events[..|events| - 1]), events[|events| - 1]);
    }
  }

  /**
   * In every reachable state the counter equals the number of requests that hold a slot; each request
   * acquires and releases at most once, and an operational one never does.
   */
  lemma SlotsAreExact(includesApi: bool, events: seq<Event>)
    ensures var s := Execute(Start(includesApi), events);
      && s.inflight == |Owners(s.requests)|
      && forall id :: id in s.requests ==> Balanced(s.requests[id]) && MarkerAgrees(s.requests[id])
  {
    RunsKeepInvariant(includesApi, events);
    var s := Execute(Start(includesApi), events);
    assert forall id :: id in s.requests ==> Sane(SeenDrained(s), s.requests[id]);
  }

  /** The floor of the release loop is never reached: a successful turn always takes a slot back. */
  lemma ReleaseNeverFindsZero(includesApi: bool, events: seq<Event>, id: nat, spurious: bool)
    requires var s := Execute(Start(includesApi), events); id in s.requests && s.requests[id].phase.Releasing?
    ensures var s := Execute(Start(includesApi), events);
      var s' := Next(s, Advance(id, spurious));
      && s.inflight > 0
      && (s'.requests[id].phase.Releasing? ==> s'.inflight == s.inflight)
      && (!s'.requests[id].phase.Releasing? ==>
           s'.inflight == s.inflight - 1 && s'.requests[id].released == s.requests[id].released + 1)
  {
    RunsKeepInvariant(includesApi, events);
    var s := Execute(Start(includesApi), events);
    assert Sane(SeenDrained(s), s.requests[id]);
    OwnerCounts(s.requests, id);
  }

  /** Once a drain has begun no request acquires a slot for good any more. */
  lemma DrainAdmitsNobody(s: System, event: Event, id: nat)
    requires s.draining && id in Next(s, event).requests && Unsent(Next(s, event).requests[id])
    requires id in s.requests ==> MarkerAgrees(s.requests[id])
    ensures id in s.requests && Unsent(s.requests[id])
  {
  }

  /** A drain has begun, and every admitted request has had its response. */
  ghost predicate Answered(s: System) {
    s.draining && forall id :: id in s.requests ==> !Unsent(s.requests[id]) && MarkerAgrees(s.requests[id])
  }

  lemma AnsweredStays(s: System, event: Event)
    requires Answered(s)
    ensures Answered(Next(s, event))
  {
  }

  lemma {:induction false} AnsweredForever(s: System, events: seq<Event>)
    requires Answered(s)
    ensures Answered(Execute(s, events))
  {
    if events != [] {
      AnsweredForever(s, events[..|events| - 1]);
      AnsweredStays(Execute(s, events[..|events| - 1]), events[|events| - 1]);
    }
  }

  /** A shutdown that quits as drained leaves no admitted request unanswered, and none is admitted later. */
  lemma QuitIsSafe(includesApi: bool, events: seq<Event>, later: seq<Event>)
    requires Execute(Start(includesApi), events).shutdown.QuitDrained?
    ensures Answered(Execute(Start(includesApi), events))
    ensures Answered(Execute(Execute(Start(includesApi), events), later))
  {
    RunsKeepInvariant(includesApi, events);
    var s := Execute(Start(includesApi), events);
    forall id | id in s.requests ensures !Unsent(s.requests[id]) && MarkerAgrees(s.requests[id]) {
      assert Sane(SeenDrained(s), s.requests[id]);
    }
    AnsweredForever(s, later);
  }

  /** Event `i` is a shutdown signal in a process with an event loop, and sets this deadline. */
  predicate Signalled(events: seq<Event>, i: nat, deadline: int) {
    i < |events| && events[i].Signal? && events[i].hasLoop && deadline == events[i].now + events[i].timeout
  }

  /**
   * Event `j`, after event `i`, is the event loop reading the counter for a check that has not ended;
   * `zero` tells whether the counter was zero then.
   */
  ghost predicate CounterRead(includesApi: bool, events: seq<Event>, i: nat, j: nat, zero: bool) {
    && i < j < |events|
    && events[j].LoadInflight?
    && (zero <==> Execute(Start(includesApi), events[..j]).inflight == 0)
    && forall m :: j < m < |events| ==> !events[m].Decide?
  }

  predicate SignalledWithoutLoop(events: seq<Event>, i: nat) {
    i < |events| && events[i].Signal? && !events[i].hasLoop
  }

  /** Some signal set this deadline. */
  ghost predicate Begun(events: seq<Event>, deadline: int) {
    exists i: nat :: Signalled(events, i, deadline)
  }

  /** After a signal that set this deadline, the loop has read the counter. */
  ghost predicate BegunAndRead(includesApi: bool, events: seq<Event>, deadline: int, zero: bool) {
    exists i: nat, j: nat :: Signalled(events, i, deadline) && CounterRead(includesApi, events, i, j, zero)
  }

  /** Event `k` ends a check that began after the signal; `drained` is what the check found. */
  ghost predicate Checked(includesApi: bool, events: seq<Event>, k: nat, deadline: int, zero: bool, drained: bool) {
    && k < |events|
    && events[k].Decide?
    && BegunAndRead(includesApi, events[..k], deadline, zero)
    && (drained <==> zero && events[k].workerDrained && events[k].schedulerDrained)
  }

  ghost predicate QuitBecauseDrained(includesApi: bool, events: seq<Event>) {
    exists k: nat, deadline :: Checked(includesApi, events, k, deadline, true, true)
  }

  ghost predicate QuitBecauseLate(includesApi: bool, events: seq<Event>, deadline: int, now: int) {
    && deadline <= now
    && exists k: nat, zero ::
         Checked(includesApi, events, k, deadline, zero, false) && events[k].now == now
  }

  /** Why the shutdown is where it is. */
  ghost predicate Justified(includesApi: bool, events: seq<Event>, shutdown: Shutdown) {
    match shutdown
    case Running => true
    case QuitWithoutLoop => exists i: nat :: SignalledWithoutLoop(events, i)
    case Waiting(deadline, api) =>
      Begun(events, deadline) && (api.Some? ==> BegunAndRead(includesApi, events, deadline, api.value))
    case QuitDrained => QuitBecauseDrained(includesApi, events)
    case QuitAtDeadline(deadline, now) => QuitBecauseLate(includesApi, events, deadline, now)
  }

  lemma BegunStays(events: seq<Event>, event: Event, deadline: int)
    requires Begun(events, deadline)
    ensures Begun(events + [event], deadline)
  {
    var i: nat :| Signalled(events, i, deadline);
    assert Signalled(events + [event], i, deadline);
  }

  lemma ReadStays(includesApi: bool, events: seq<Event>, event: Event, deadline: int, zero: bool)
    requires BegunAndRead(includesApi, events, deadline, zero) && !event.Decide?
    ensures BegunAndRead(includesApi, events + [event], deadline, zero)
  {
    var longer := events + [event];
    var i: nat, j: nat :| Signalled(events, i, deadline) && CounterRead(includesApi, events, i, j, zero);
    assert longer[..j] == events[..j];
    assert Signalled(longer, i, deadline) && CounterRead(includesApi, longer, i, j, zero);
  }

  lemma CheckedStays(includesApi: bool, events: seq<Event>, event: Event, k: nat, deadline: int, zero: bool,
                     drained: bool)
    requires Checked(includesApi, events, k, deadline, zero, drained)
    ensures Checked(includesApi, events + [event], k, deadline, zero, drained)
    ensures (events + [event])[k] == events[k]
  {
    assert (events + [event])[..k] == events[..k];
  }

  /** The first half of a check. */
  lemma LoadIsRead(includesApi: bool, events: seq<Event>, deadline: int, zero: bool)
    requires Begun(events, deadline)
    requires zero <==> Execute(Start(includesApi), events).inflight == 0
    ensures BegunAndRead(includesApi, events + [LoadInflight], deadline, zero)
  {
    var longer := events + [LoadInflight];
    var i: nat :| Signalled(events, i, deadline);
    assert longer[..|events|] == events;
    assert Signalled(longer, i, deadline) && CounterRead(includesApi, longer, i, |events|, zero);
  }

  /** And the second. */
  lemma DecideIsJustified(includesApi: bool, events: seq<Event>, event: Event, deadline: int, zero: bool)
    requires event.Decide?
    requires Begun(events, deadline) && BegunAndRead(includesApi, events, deadline, zero)
    ensures var drained := zero && event.workerDrained && event.schedulerDrained;
      && Begun(events + [event], deadline)
      && (drained ==> QuitBecauseDrained(includesApi, events + [event]))
      && (!drained && deadline <= event.now ==>
           QuitBecauseLate(includesApi, events + [event], deadline, event.now))
  {
    var longer := events + [event];
    assert longer[..|events|] == events;
    BegunStays(events, event, deadline);
    assert Checked(includesApi, longer, |events|, deadline, zero,
                   zero && event.workerDrained && event.schedulerDrained);
  }

  lemma QuitStays(includesApi: bool, events: seq<Event>, event: Event, deadline: int, now: int)
    ensures QuitBecauseDrained(includesApi, events) ==> QuitBecauseDrained(includesApi, events + [event])
    ensures QuitBecauseLate(includesApi, events, deadline, now) ==>
      QuitBecauseLate(includesApi, events + [event], deadline, now)
  {
    if QuitBecauseDrained(includesApi, events) {
      var k: nat, at :| Checked(includesApi, events, k, at, true, true);
      CheckedStays(includesApi, events, event, k, at, true, true);
    }
    if QuitBecauseLate(includesApi, events, deadline, now) {
      var k: nat, zero :| Checked(includesApi, events, k, deadline, zero, false) && events[k].now == now;
      CheckedStays(includesApi, events, event, k, deadline, zero, false);
    }
  }

  lemma ShutdownIs(s: System, event: Event)
    ensures Next(s, event).shutdown == ShutdownAfter(s, event)
  {
  }

  lemma WaitingStep(includesApi: bool, events: seq<Event>, event: Event)
    requires var shutdown := Execute(Start(includesApi), events).shutdown;
      shutdown.Waiting? && Execute(Start(includesApi), events).draining && Justified(includesApi, events, shutdown)
    ensures Justified(includesApi, events + [event], ShutdownAfter(Execute(Start(includesApi), events), event))
  {
    var s := Execute(Start(includesApi), events);
    var deadline, api := s.shutdown.deadline, s.shutdown.apiDrained;
    BegunStays(events, event, deadline);
    if api.None? {
      if event.LoadInflight? {
        LoadIsRead(includesApi, events, deadline, s.inflight == 0);
      }
    } else if event.Decide? {
      DecideIsJustified(includesApi, events, event, deadline, api.value);
    } else {
      ReadStays(includesApi, events, event, deadline, api.value);
    }
  }

  lemma JustifiedStep(includesApi: bool, events: seq<Event>, event: Event)
    requires var s := Execute(Start(includesApi), events); s.shutdown != Running ==> s.draining
    requires Justified(includesApi, events, Execute(Start(includesApi), events).shutdown)
    ensures Justified(includesApi, events + [event], ShutdownAfter(Execute(Start(includesApi), events), event))
  {
    var s := Execute(Start(includesApi), events);
    if s.shutdown.Waiting? {
      WaitingStep(includesApi, events, event);
    } else if s.shutdown.QuitDrained? {
      QuitStays(includesApi, events, event, 0, 0);
    } else if s.shutdown.QuitAtDeadline? {
      QuitStays(includesApi, events, event, s.shutdown.deadline, s.shutdown.now);
    } else if s.shutdown.QuitWithoutLoop? {
      var i: nat :| SignalledWithoutLoop(events, i);
      assert SignalledWithoutLoop(events + [event], i);
    } else if event.Signal? {
      assert event.hasLoop ==> Signalled(events + [event], |events|, event.now + event.timeout);
      assert !event.hasLoop ==> SignalledWithoutLoop(events + [event], |events|);
    }
  }

  /**
   * In every run, a shutdown with an event loop has quit only because a check that began after the
   * signal found the counter at zero, the worker and the scheduler drained; or because it found
   * something undrained at or after the signal's time plus its timeout.
   */
  lemma {:induction false} QuitIsJustified(includesApi: bool, events: seq<Event>)
    ensures Justified(includesApi, events, Execute(Start(includesApi), events).shutdown)
  {
    if events != [] {
      var n := |events| - 1;
      QuitIsJustified(includesApi, events[..n]);
      RunsKeepInvariant(includesApi, events[..n]);
      JustifiedStep(includesApi, events[..n], events[n]);
      ShutdownIs(Execute(Start(includesApi), events[..n]), events[n]);
      assert events == events[..n] + [events[n]];
    }
  }

  /** A check of the drain ends here, and finds everything drained or the deadline passed. */
  predicate MayQuit(s: System, event: Event) {
    && event.Decide? && s.shutdown.Waiting? && s.shutdown.apiDrained.Some?
    && (event.now >= s.shutdown.deadline
        || (s.shutdown.apiDrained.value && event.workerDrained && event.schedulerDrained))
  }

  ghost predicate MayQuitAt(includesApi: bool, events: seq<Event>, k: nat) {
    k < |events| && MayQuit(Execute(Start(includesApi), events[..k]), events[k])
  }

  lemma QuitStep(s: System, event: Event)
    requires s.shutdown != Running ==> s.draining
    ensures var before, after := s.shutdown, ShutdownAfter(s, event);
      after.QuitDrained? || after.QuitAtDeadline? <==>
        before.QuitDrained? || before.QuitAtDeadline? || MayQuit(s, event)
  {
  }

  /** In every run, the event loop has quit exactly when some check was allowed to: the first one was. */
  lemma {:induction false} QuitsAsSoonAsAllowed(includesApi: bool, events: seq<Event>)
    ensures var shutdown := Execute(Start(includesApi), events).shutdown;
      shutdown.QuitDrained? || shutdown.QuitAtDeadline? <==> exists k: nat :: MayQuitAt(includesApi, events, k)
  {
    if events != [] {
      var n := |events| - 1;
      QuitsAsSoonAsAllowed(includesApi, events[..n]);
      forall k: nat | k < n
        ensures MayQuitAt(includesApi, events, k) <==> MayQuitAt(includesApi, events[..n], k)
      {
        assert events[..n][..k] == events[..k];
      }
      RunsKeepInvariant(includesApi, events[..n]);
      QuitStep(Execute(Start(includesApi), events[..n]), events[n]);
      ShutdownIs(Execute(Start(includesApi), events[..n]), events[n]);
      assert MayQuitAt(includesApi, events, n) <==> MayQuit(Execute(Start(includesApi), events[..n]), events[n]);
    }
  }

  /** `n` operations of one request with nobody else at work. */
  function Alone(s: System, id: nat, n: nat): System
    decreases n
  {
    if n == 0 then s else Alone(Next(s, Advance(id, false)), id, n - 1)
  }

  /** A business request has just arrived, and nobody disturbs it. */
  lemma UndisturbedAcquire(s: System, id: nat)
    requires id !in s.requests
    ensures var s' := Alone(Next(s, Arrive(id, false)), id, 6);
      var accepted := s.includesApi && s.initialized && !s.draining;
      && id in s'.requests
      && s'.inflight == s.inflight + (if accepted then 1 else 0)
      && s'.requests[id].phase == (if accepted then Admitted else Rejected)
      && s'.requests[id].marker == (if accepted then Some(false) else None)
      && s'.draining == s.draining
  {
    var s0 := Next(s, Arrive(id, false));
    var s1 := Next(s0, Advance(id, false));
    var s2 := Next(s1, Advance(id, false));
    var s3 := Next(s2, Advance(id, false));
    assert Alone(s0, id, 6) == Alone(s1, id, 5) == Alone(s2, id, 4) == Alone(s3, id, 3);
    var s4 := Next(s3, Advance(id, false));
    var s5 := Next(s4, Advance(id, false));
    assert Alone(s3, id, 3) == Alone(s4, id, 2) == Alone(s5, id, 1) == Next(s5, Advance(id, false));
  }

  /** The response of an admitted request gives its slot back, and a second callback gives back nothing. */
  lemma UndisturbedRelease(s: System, id: nat)
    requires id in s.requests && s.requests[id].phase == Admitted && s.requests[id].marker == Some(false)
    requires s.inflight > 0
    ensures var s' := Alone(Next(s, PreSend(id)), id, 2);
      && s'.inflight == s.inflight - 1
      && id in s'.requests && s'.requests[id].phase == Sent
      && s'.requests[id].released == s.requests[id].released + 1
      && Next(s', PreSend(id)) == s'
  {
    var s0 := Next(s, PreSend(id));
    var s1 := Next(s0, Advance(id, false));
    assert Alone(s0, id, 2) == Alone(s1, id, 1) == Next(s1, Advance(id, false));
    var s2 := Next(s1, Advance(id, false));
    assert s2.requests[id := s2.requests[id]] == s2.requests;
  }

  /** Event `k` is the first arrival of this request. */
  predicate Arrives(events: seq<Event>, k: nat, id: nat, operational: bool) {
    && k < |events| && events[k] == Arrive(id, operational)
    && forall j :: 0 <= j < k && events[j].Arrive? ==> events[j].id != id
  }

  lemma {:induction false} UnknownBeforeArrival(includesApi: bool, events: seq<Event>, id: nat)
    requires forall j :: 0 <= j < |events| && events[j].Arrive? ==> events[j].id != id
    ensures id !in Execute(Start(includesApi), events).requests
  {
    if events != [] {
      UnknownBeforeArrival(includesApi, events[..|events| - 1], id);
    }
  }

  /** A request that never touches the counter. */
  predicate Untouched(s: System, id: nat) {
    id in s.requests && s.requests[id].phase == Operational
    && s.requests[id].acquired == 0 == s.requests[id].released && s.requests[id].marker == None
  }

  lemma UntouchedStep(s: System, id: nat, event: Event)
    requires Untouched(s, id)
    ensures Untouched(Next(s, event), id)
    ensures (event.Advance? || event.PreSend? || event.Arrive?) && event.id == id ==> Next(s, event) == s
  {
    assert s.requests[id := s.requests[id]] == s.requests;
  }

  /**
   * In every run, a request that arrives as operational is passed on for good: never rejected, not
   * even during a drain, and no event of it ever changes the counter or anything else.
   */
  lemma {:induction false} OperationalIsPassedOn(includesApi: bool, events: seq<Event>, k: nat, id: nat, event: Event)
    requires Arrives(events, k, id, true)
    requires (event.Advance? || event.PreSend? || event.Arrive?) && event.id == id
    ensures var s := Execute(Start(includesApi), events);
      Untouched(s, id) && Next(s, event) == s
  {
    var n := |events| - 1;
    var before := Execute(Start(includesApi), events[..n]);
    if k == n {
      UnknownBeforeArrival(includesApi, events[..n], id);
    } else {
      OperationalIsPassedOn(includesApi, events[..n], k, id, event);
      UntouchedStep(before, id, events[n]);
    }
    UntouchedStep(Execute(Start(includesApi), events), id, event);
  }

  lemma BusinessStep(s: System, id: nat, event: Event)
    requires id in s.requests && s.requests[id].phase != Operational
    ensures id in Next(s, event).requests && Next(s, event).requests[id].phase != Operational
  {
  }

  /** In every run, a request that arrives otherwise is never treated as operational. */
  lemma {:induction false} BusinessIsNeverOperational(includesApi: bool, events: seq<Event>, k: nat, id: nat)
    requires Arrives(events, k, id, false)
    ensures var s := Execute(Start(includesApi), events);
      id in s.requests && s.requests[id].phase != Operational
  {
    var n := |events| - 1;
    if k == n {
      UnknownBeforeArrival(includesApi, events[..n], id);
    } else {
      BusinessIsNeverOperational(includesApi, events[..n], k, id);
      BusinessStep(Execute(Start(includesApi), events[..n]), id, events[n]);
    }
  }

  /** The flags are what has happened: requests are accepted from the initialisation to the first signal. */
  lemma {:induction false} FlagsFollowEvents(includesApi: bool, events: seq<Event>)
    ensures var s := Execute(Start(includesApi), events);
      && s.includesApi == includesApi
      && (s.initialized <==> Initialize in events)
      && (s.draining <==> exists k :: 0 <= k < |events| && events[k].Signal?)
      && (s.shutdown.Running? <==> !s.draining)
  {
    if events != [] {
      var n := |events| - 1;
      FlagsFollowEvents(includesApi, events[..n]);
      assert events == events[..n] + [events[n]];
      assert (exists k :: 0 <= k < n && events[..n][k].Signal?) <==> exists k :: 0 <= k < n && events[k].Signal?;
    }
  }
}
