// The offline queue of the ingest client: events wait here while the backend is away, the
// oldest is dropped at the cap, and a flush delivers in order until the first failure. An event
// stands for its place in the sequence of everything ever enqueued.
module OfflineQueue {

  const OFFLINE_QUEUE_MAX := 100

  // flights holds, for each flush ever begun, what it has not delivered yet.
  datatype State = State(enqueued: nat, queue: seq<nat>, flights: seq<seq<nat>>, acked: seq<nat>, evicted: seq<nat>)

  const INITIAL := State(0, [], [], [], [])

  // An event is queued, a flush takes the queue, its next send is acknowledged or fails.
  datatype Event = Enqueue | Begin | Ack(flight: nat) | Fail(flight: nat)

  predicate Active(s: State, f: nat) {
    f < |s.flights| && s.flights[f] != []
  }

  predicate Enabled(s: State, e: Event) {
    match e
    case Enqueue => true
    case Begin => true
    case Ack(f) => Active(s, f)
    case Fail(f) => Active(s, f)
  }

  function Step(s: State, e: Event): State
    requires Enabled(s, e)
  {
    match e
    case Enqueue =>
      var full := |s.queue| >= OFFLINE_QUEUE_MAX;
      s.(enqueued := s.enqueued + 1,
         queue := (if full then s.queue[1..] else s.queue) + [s.enqueued],
         evicted := if full then s.evicted + [s.queue[0]] else s.evicted)
    case Begin =>
      if s.queue == [] then s else s.(queue := [], flights := s.flights + [s.queue])
    case Ack(f) =>
      s.(acked := s.acked + [s.flights[f][0]], flights := s.flights[f := s.flights[f][1..]])
    case Fail(f) =>
      s.(queue := s.flights[f] + s.queue, flights := s.flights[f := []])
  }

  // --- The client's methods; a flush is cut at each awaited send ---

  class OfflineQueueClient {
    var enqueued: nat
    var queue: seq<nat>
    var flights: seq<seq<nat>>
    var acked: seq<nat>
    var evicted: seq<nat>

    constructor ()
      ensures View() == INITIAL
    {
      enqueued, queue, flights, acked, evicted := 0, [], [], [], [];
    }

    function View(): State
      reads this
    {
      State(enqueued, queue, flights, acked, evicted)
    }

    method EnqueueOffline()
      modifies this
      ensures View() == Step(old(View()), Enqueue)
    {
      if |queue| >= OFFLINE_QUEUE_MAX {
        evicted := evicted + [queue[0]];
        queue := queue[1..];
      }
      queue := queue + [enqueued];
      enqueued := enqueued + 1;
    }

    method BeginFlush()
      modifies this
      ensures View() == Step(old(View()), Begin)
    {
      if |queue| == 0 {
        return;
      }
      flights := flights + [queue];
      queue := [];
    }

    method SendSucceeds(f: nat)
      requires Enabled(View(), Ack(f))
      modifies this
      ensures View() == Step(old(View()), Ack(f))
    {
      acked := acked + [flights[f][0]];
      flights := flights[f := flights[f][1..]];
    }

    // The first failure ends the flush: what is left goes back in front of the queue.
    method SendFails(f: nat)
      requires Enabled(View(), Fail(f))
      modifies this
      ensures View() == Step(old(View()), Fail(f))
    {
      queue := flights[f] + queue;
      flights := flights[f := []];
    }
  }

  // --- Conservation, with any number of overlapping flushes ---

  // How often event i is in a sequence, and in all flights together.
  function Times(i: nat, s: seq<nat>): nat {
    multiset(s)[i]
  }

  function InFlight(i: nat, flights: seq<seq<nat>>): nat {
    if flights == [] then 0 else Times(i, flights[0]) + InFlight(i, flights[1..])
  }

  // Every event ever enqueued is in exactly one place, once.
  ghost predicate Conserved(s: State) {
    forall i: nat ::
      Times(i, s.acked) + Times(i, s.evicted) + InFlight(i, s.flights) + Times(i, s.queue) ==
      if i < s.enqueued then 1 else 0
  }

  lemma TimesOfConcat(i: nat, s: seq<nat>, t: seq<nat>)
    ensures Times(i, s + t) == Times(i, s) + Times(i, t)
  {
  }

  lemma TimesOfOne(i: nat, n: nat)
    ensures Times(i, [n]) == if i == n then 1 else 0
  {
  }

  lemma TimesOfNone(i: nat)
    ensures Times(i, []) == 0
  {
  }

  lemma {:induction false} InFlightAppend(i: nat, flights: seq<seq<nat>>, flight: seq<nat>)
    ensures InFlight(i, flights + [flight]) == InFlight(i, flights) + Times(i, flight)
  {
    if flights == [] {
      assert flights + [flight] == [flight] && [flight][1..] == [];
    } else {
      InFlightAppend(i, flights[1..], flight);
      assert (flights + [flight])[1..] == flights[1..] + [flight];
    }
  }

  lemma {:induction false} InFlightUpdate(i: nat, flights: seq<seq<nat>>, f: nat, flight: seq<nat>)
    requires f < |flights|
    ensures InFlight(i, flights[f := flight]) + Times(i, flights[f]) == InFlight(i, flights) + Times(i, flight)
  {
    if f == 0 {
      assert flights[f := flight][1..] == flights[1..];
    } else {
      InFlightUpdate(i, flights[1..], f - 1, flight);
      assert flights[f := flight][1..] == flights[1..][f - 1 := flight];
    }
  }

  lemma StepConserves(s: State, e: Event)
    requires Conserved(s) && Enabled(s, e)
    ensures Conserved(Step(s, e))
  {
    var t := Step(s, e);
    forall i: nat
      ensures Times(i, t.acked) + Times(i, t.evicted) + InFlight(i, t.flights) + Times(i, t.queue) ==
              if i < t.enqueued then 1 else 0
    {
      StepConservesEach(s, e, i);
    }
  }

  lemma {:induction false} StepConservesEach(s: State, e: Event, i: nat)
    requires Conserved(s) && Enabled(s, e)
    ensures var t := Step(s, e);
            Times(i, t.acked) + Times(i, t.evicted) + InFlight(i, t.flights) + Times(i, t.queue) ==
            if i < t.enqueued then 1 else 0
  {
    TimesOfOne(i, s.enqueued);
    TimesOfNone(i);
    hide Times, InFlight;
    match e
    case Enqueue =>
      if |s.queue| >= OFFLINE_QUEUE_MAX {
        assert s.queue == [s.queue[0]] + s.queue[1..];
        TimesOfConcat(i, [s.queue[0]], s.queue[1..]);
        TimesOfConcat(i, s.evicted, [s.queue[0]]);
        TimesOfConcat(i, s.queue[1..], [s.enqueued]);
      } else {
        TimesOfConcat(i, s.queue, [s.enqueued]);
      }
    case Begin =>
      InFlightAppend(i, s.flights, s.queue);
    case Ack(f) =>
      var flight := s.flights[f];
      InFlightUpdate(i, s.flights, f, flight[1..]);
      assert flight == [flight[0]] + flight[1..];
      TimesOfConcat(i, [flight[0]], flight[1..]);
      TimesOfConcat(i, s.acked, [flight[0]]);
    case Fail(f) =>
      InFlightUpdate(i, s.flights, f, []);
      TimesOfConcat(i, s.flights[f], s.queue);
  }

  // --- Order, when flushes do not overlap ---

  ghost predicate NoneActive(s: State) {
    forall f :: 0 <= f < |s.flights| ==> s.flights[f] == []
  }

  // A flush begins only when no other is under way.
  ghost predicate Alone(s: State, e: Event) {
    e.Begin? ==> NoneActive(s)
  }

  // Only the latest flush can still be under way.
  ghost predicate OneFlight(s: State) {
    forall f :: 0 <= f < |s.flights| - 1 ==> s.flights[f] == []
  }

  function Current(s: State): seq<nat> {
    if s.flights == [] then [] else s.flights[|s.flights| - 1]
  }

  // Delivered, then in flight, then waiting.
  function Line(s: State): seq<nat> {
    s.acked + Current(s) + s.queue
  }

  ghost predicate Increasing(s: seq<nat>) {
    forall i, j :: 0 <= i < j < |s| ==> s[i] < s[j]
  }

  ghost predicate Below(s: seq<nat>, n: nat) {
    forall i :: 0 <= i < |s| ==> s[i] < n
  }

  ghost predicate InOrder(s: State) {
    OneFlight(s) && Increasing(Line(s)) && Below(Line(s), s.enqueued)
  }

  lemma LineAfterEnqueue(s: State)
    requires InOrder(s)
    ensures InOrder(Step(s, Enqueue))
  {
    hide Increasing, Below;
    var line := Line(s);
    if |s.queue| >= OFFLINE_QUEUE_MAX {
      var k := |s.acked + Current(s)|;
      DropKeepsIncreasing(line, k, s.enqueued);
      PushKeepsIncreasing(line[..k] + line[k + 1..], s.enqueued);
      assert Line(Step(s, Enqueue)) == line[..k] + line[k + 1..] + [s.enqueued];
    } else {
      PushKeepsIncreasing(line, s.enqueued);
      assert Line(Step(s, Enqueue)) == line + [s.enqueued];
    }
  }

  // Nothing moves past anything else when a flush begins, delivers or gives up.
  lemma LineStays(s: State, e: Event)
    requires OneFlight(s) && Enabled(s, e) && Alone(s, e) && !e.Enqueue?
    ensures OneFlight(Step(s, e)) && Line(Step(s, e)) == Line(s)
  {
    match e
    case Begin =>
    case Ack(f) =>
      assert Current(s) == [s.flights[f][0]] + s.flights[f][1..];
    case Fail(f) =>
  }

  lemma StepKeepsOrder(s: State, e: Event)
    requires InOrder(s) && Enabled(s, e) && Alone(s, e)
    ensures InOrder(Step(s, e))
  {
    if e.Enqueue? {
      LineAfterEnqueue(s);
    } else {
      LineStays(s, e);
      assert Step(s, e).enqueued == s.enqueued;
    }
    hide Increasing, Below, OneFlight, Line, Enabled, Alone;
  }

  lemma DropKeepsIncreasing(s: seq<nat>, k: nat, n: nat)
    requires Increasing(s) && Below(s, n) && k < |s|
    ensures Increasing(s[..k] + s[k + 1..]) && Below(s[..k] + s[k + 1..], n)
  {
  }

  lemma PushKeepsIncreasing(s: seq<nat>, n: nat)
    requires Increasing(s) && Below(s, n)
    ensures Increasing(s + [n]) && Below(s + [n], n + 1)
  {
  }

  // --- Whole runs ---

  ghost predicate IsRun(s: State, events: seq<Event>)
    decreases events
  {
    events == [] || (Enabled(s, events[0]) && IsRun(Step(s, events[0]), events[1..]))
  }

  ghost function Run(s: State, events: seq<Event>): State
    requires IsRun(s, events)
    decreases events
  {
    if events == [] then s else Run(Step(s, events[0]), events[1..])
  }

  ghost predicate NoOverlap(s: State, events: seq<Event>)
    requires IsRun(s, events)
    decreases events
  {
    events == [] || (Alone(s, events[0]) && NoOverlap(Step(s, events[0]), events[1..]))
  }

  lemma {:induction false} RunAppend(s: State, first: seq<Event>, second: seq<Event>)
    requires IsRun(s, first) && IsRun(Run(s, first), second)
    ensures IsRun(s, first + second)
    ensures NoOverlap(s, first + second) <==> NoOverlap(s, first) && NoOverlap(Run(s, first), second)
    ensures Run(s, first + second) == Run(Run(s, first), second)
    decreases first
  {
    if first == [] {
      assert first + second == second;
    } else {
      RunAppend(Step(s, first[0]), first[1..], second);
      assert (first + second)[1..] == first[1..] + second;
    }
  }

  lemma {:induction false} RunConserves(s: State, events: seq<Event>)
    requires Conserved(s) && IsRun(s, events)
    ensures Conserved(Run(s, events))
    decreases events
  {
    if events != [] {
      StepConserves(s, events[0]);
      RunConserves(Step(s, events[0]), events[1..]);
    }
  }

  lemma {:induction false} RunKeepsOrder(s: State, events: seq<Event>)
    requires InOrder(s) && IsRun(s, events) && NoOverlap(s, events)
    ensures InOrder(Run(s, events))
    decreases events
  {
    if events != [] {
      StepKeepsOrder(s, events[0]);
      RunKeepsOrder(Step(s, events[0]), events[1..]);
    }
  }

  // Without overlapping flushes, and however enqueues interleave: what was delivered, is in flight
  // and waits is, in this order, what was enqueued less exactly the evicted events.
  lemma {:induction false} DeliveredInOrder(events: seq<Event>, i: nat)
    requires IsRun(INITIAL, events) && NoOverlap(INITIAL, events)
    requires i < Run(INITIAL, events).enqueued
    ensures var s := Run(INITIAL, events);
            && Increasing(Line(s)) && Below(Line(s), s.enqueued)
            && (i in Line(s) <==> i !in s.evicted)
  {
    RunConserves(INITIAL, events);
    RunKeepsOrder(INITIAL, events);
    var s := Run(INITIAL, events);
    OnlyCurrentCounts(s, i);
    TimesOfConcat(i, s.acked, Current(s));
    TimesOfConcat(i, s.acked + Current(s), s.queue);
    assert Times(i, Line(s)) + Times(i, s.evicted) == 1;
    assert i in multiset(Line(s)) <==> i in Line(s);
    assert i in multiset(s.evicted) <==> i in s.evicted;
  }

  // The event that a full queue gives up is the one waiting longest; below the cap none goes.
  lemma OldestIsEvicted(s: State) returns (oldest: nat)
    requires InOrder(s)
    ensures var t := Step(s, Enqueue);
            if |s.queue| < 100 then t.evicted == s.evicted && t.queue == s.queue + [s.enqueued]
            else && t.evicted == s.evicted + [oldest] && |t.queue| == |s.queue|
                 && oldest in s.queue && (forall i <- s.queue :: oldest <= i)
                 && (forall i :: i in t.queue <==> (i in s.queue && i != oldest) || i == s.enqueued)
  {
    oldest := 0;
    if |s.queue| >= 100 {
      oldest := s.queue[0];
      QueueIsOrdered(s);
      assert s.queue == [oldest] + s.queue[1..];
      assert Step(s, Enqueue).queue == s.queue[1..] + [s.enqueued];
    }
  }

  lemma QueueIsOrdered(s: State)
    requires InOrder(s)
    ensures Increasing(s.queue) && Below(s.queue, s.enqueued)
  {
    var n := |s.acked + Current(s)|;
    assert Line(s)[n..] == s.queue;
    assert forall i :: 0 <= i < |s.queue| ==> s.queue[i] == Line(s)[n + i];
  }

  lemma {:induction false} OnlyCurrentCounts(s: State, i: nat)
    requires OneFlight(s)
    ensures InFlight(i, s.flights) == Times(i, Current(s))
  {
    if s.flights != [] {
      EmptyFlights(i, s.flights[..|s.flights| - 1]);
      InFlightAppend(i, s.flights[..|s.flights| - 1], Current(s));
      assert s.flights[..|s.flights| - 1] + [Current(s)] == s.flights;
    }
  }

  lemma {:induction false} EmptyFlights(i: nat, flights: seq<seq<nat>>)
    requires forall f :: 0 <= f < |flights| ==> flights[f] == []
    ensures InFlight(i, flights) == 0
  {
    if flights != [] {
      EmptyFlights(i, flights[1..]);
    }
  }

  function Acks(f: nat, k: nat): seq<Event> {
    seq(k, _ => Ack(f))
  }

  // The state after k of a flight's sends.
  function Acked(s: State, f: nat, k: nat): State
    requires f < |s.flights| && k <= |s.flights[f]|
  {
    s.(acked := s.acked + s.flights[f][..k], flights := s.flights[f := s.flights[f][k..]])
  }

  lemma AckedUnfolds(s: State, f: nat, k: nat)
    requires f < |s.flights| && 0 < k <= |s.flights[f]|
    ensures Enabled(s, Ack(f))
    ensures var t := Step(s, Ack(f)); f < |t.flights| && k - 1 <= |t.flights[f]| && Acked(t, f, k - 1) == Acked(s, f, k)
  {
    var flight, t := s.flights[f], Step(s, Ack(f));
    assert flight[1..][k - 1..] == flight[k..];
    assert [flight[0]] + flight[1..][..k - 1] == flight[..k];
    assert t.acked + flight[1..][..k - 1] == s.acked + ([flight[0]] + flight[1..][..k - 1]);
    assert t.flights[f := flight[k..]] == s.flights[f := flight[k..]];
  }

  lemma AckedAtFirst(s: State, f: nat)
    requires f < |s.flights|
    ensures Acked(s, f, 0) == s
  {
    assert s.flights[f][0..] == s.flights[f] && s.acked + s.flights[f][..0] == s.acked;
  }

  lemma {:induction false} AcksDeliver(s: State, f: nat, k: nat)
    requires f < |s.flights| && k <= |s.flights[f]|
    ensures IsRun(s, Acks(f, k)) && Run(s, Acks(f, k)) == Acked(s, f, k)
    decreases k
  {
    hide Step, Enabled, Acked;
    if k == 0 {
      AckedAtFirst(s, f);
    } else {
      AckedUnfolds(s, f, k);
      AcksDeliver(Step(s, Ack(f)), f, k - 1);
      assert Acks(f, k)[0] == Ack(f) && Acks(f, k)[1..] == Acks(f, k - 1);
    }
  }

  // A flush delivers what waited, in order, up to the first failure; the rest waits again.
  lemma FlushIsRight(s: State, k: nat) returns (events: seq<Event>)
    requires s.queue != [] && k <= |s.queue|
    ensures events == [Begin] + Acks(|s.flights|, k) + if k < |s.queue| then [Fail(|s.flights|)] else []
    ensures IsRun(s, events)
    ensures var t := Run(s, events);
            t.acked == s.acked + s.queue[..k] && t.queue == s.queue[k..] && t.evicted == s.evicted
    ensures NoneActive(s) ==> NoneActive(Run(s, events))
  {
    var f, begun := |s.flights|, Step(s, Begin);
    var last := if k < |s.queue| then [Fail(f)] else [];
    AcksDeliver(begun, f, k);
    var t := Run(begun, Acks(f, k));
    assert last != [] ==> last[1..] == [];
    assert IsRun(t, last);
    RunAppend(begun, Acks(f, k), last);
    events := [Begin] + Acks(f, k) + last;
    assert events[1..] == Acks(f, k) + last;
  }

  // --- The cap ---

  // Queued and in flight together are within the cap.
  ghost predicate UnderCap(s: State) {
    OneFlight(s) && |Current(s)| + |s.queue| <= OFFLINE_QUEUE_MAX
  }

  // A step leaves the cap behind exactly when it enqueues during a flush while the events in
  // flight and in the queue already fill it: the guard looks at the queue alone.
  lemma CapHoldsUnlessFullDuringFlush(s: State, e: Event)
    requires UnderCap(s) && Enabled(s, e) && Alone(s, e)
    ensures UnderCap(Step(s, e)) <==>
            !(e.Enqueue? && !NoneActive(s) && |Current(s)| + |s.queue| == OFFLINE_QUEUE_MAX)
  {
    assert NoneActive(s) <==> Current(s) == [];
    if e.Enqueue? {
      assert Current(Step(s, e)) == Current(s) && OneFlight(Step(s, e));
    } else {
      LineStays(s, e);
      assert |Step(s, e).acked| >= |s.acked|;
    }
  }

  // The step that takes the queue over the cap: a flush fails, and what it gives back does not fit
  // behind the events that came in meanwhile.
  ghost predicate Overflows(s: State, e: Event)
    requires Enabled(s, e)
  {
    e.Fail? && |s.flights[e.flight]| + |s.queue| > OFFLINE_QUEUE_MAX
  }

  lemma StepKeepsCapIff(s: State, e: Event)
    requires Enabled(s, e) && |s.queue| <= OFFLINE_QUEUE_MAX
    ensures |Step(s, e).queue| <= OFFLINE_QUEUE_MAX <==> !Overflows(s, e)
  {
  }

  ghost predicate CapHoldsThroughout(s: State, events: seq<Event>)
    requires IsRun(s, events)
    decreases events
  {
    |s.queue| <= OFFLINE_QUEUE_MAX && (events != [] ==> CapHoldsThroughout(Step(s, events[0]), events[1..]))
  }

  ghost predicate NothingOverflows(s: State, events: seq<Event>)
    requires IsRun(s, events)
    decreases events
  {
    events != [] ==> !Overflows(s, events[0]) && NothingOverflows(Step(s, events[0]), events[1..])
  }

  // In any run, overlapping flushes included, the queue stays within the cap exactly when no failing
  // flush gives back more than fits.
  lemma {:induction false} CapHoldsThroughoutIff(s: State, events: seq<Event>)
    requires IsRun(s, events) && |s.queue| <= OFFLINE_QUEUE_MAX
    ensures CapHoldsThroughout(s, events) <==> NothingOverflows(s, events)
    decreases events
  {
    if events != [] {
      StepKeepsCapIff(s, events[0]);
      hide Step, Overflows;
      if |Step(s, events[0]).queue| <= OFFLINE_QUEUE_MAX {
        CapHoldsThroughoutIff(Step(s, events[0]), events[1..]);
      }
    }
  }

  // Nothing is enqueued while a flush is under way.
  ghost predicate Quiet(s: State, events: seq<Event>)
    requires IsRun(s, events)
    decreases events
  {
    events != [] ==> (events[0].Enqueue? ==> NoneActive(s)) && Quiet(Step(s, events[0]), events[1..])
  }

  // So it does in every run whose enqueues and flushes do not interleave.
  lemma {:induction false} QuietRunsKeepCap(s: State, events: seq<Event>)
    requires UnderCap(s) && IsRun(s, events) && NoOverlap(s, events) && Quiet(s, events)
    ensures CapHoldsThroughout(s, events) && |Run(s, events).queue| <= 100
    decreases events
  {
    if events != [] {
      CapHoldsUnlessFullDuringFlush(s, events[0]);
      QuietRunsKeepCap(Step(s, events[0]), events[1..]);
    }
  }

  function Enqueues(n: nat): seq<Event> {
    seq(n, _ => Enqueue)
  }

  // Enqueues alone fill a queue up to the cap and never lengthen one that is at the cap or over it.
  lemma {:induction false} EnqueuesKeepCap(s: State, n: nat)
    ensures IsRun(s, Enqueues(n)) && NoOverlap(s, Enqueues(n))
    ensures var t := Run(s, Enqueues(n));
            && t.flights == s.flights && t.enqueued == s.enqueued + n
            && |t.queue| == (if |s.queue| >= 100 then |s.queue|
                             else if |s.queue| + n <= 100 then |s.queue| + n else 100)
    decreases n
  {
    if n > 0 {
      EnqueuesKeepCap(Step(s, Enqueue), n - 1);
      assert Enqueues(n)[1..] == Enqueues(n - 1);
    }
  }

  // The cap does not bound the queue when a flush fails after enqueues came in: each such round
  // adds a hundred events, and no later step takes them out again.
  lemma {:induction false} QueueOutgrowsCap(m: nat) returns (events: seq<Event>)
    ensures IsRun(INITIAL, events) && NoOverlap(INITIAL, events)
    ensures NoneActive(Run(INITIAL, events))
    ensures |Run(INITIAL, events).queue| == (m + 1) * 100
    decreases m
  {
    if m == 0 {
      events := Enqueues(OFFLINE_QUEUE_MAX);
      EnqueuesKeepCap(INITIAL, OFFLINE_QUEUE_MAX);
    } else {
      var before := QueueOutgrowsCap(m - 1);
      var s := Run(INITIAL, before);
      var more := Round(s);
      events := before + more;
      RunAppend(INITIAL, before, more);
    }
  }

  // A flush begins, a hundred events arrive, the first send fails.
  lemma Round(s: State) returns (events: seq<Event>)
    requires NoneActive(s) && s.queue != []
    ensures IsRun(s, events) && NoOverlap(s, events)
    ensures NoneActive(Run(s, events)) && |Run(s, events).queue| == |s.queue| + OFFLINE_QUEUE_MAX
  {
    var begun := Step(s, Begin);
    EnqueuesKeepCap(begun, OFFLINE_QUEUE_MAX);
    var full := Run(begun, Enqueues(OFFLINE_QUEUE_MAX));
    var fail := [Fail(|s.flights|)];
    assert fail[1..] == [];
    RunAppend(begun, Enqueues(OFFLINE_QUEUE_MAX), fail);
    events := [Begin] + (Enqueues(OFFLINE_QUEUE_MAX) + fail);
    assert events[1..] == Enqueues(OFFLINE_QUEUE_MAX) + fail;
  }
}
