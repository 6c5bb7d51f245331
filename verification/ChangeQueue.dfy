// The per-document promise queue of the detector. Each change event chains its handler on the
// promise that the map holds for the document, and the last promise of a chain removes itself.
module ChangeQueue {

  type Key = string

  datatype Status = Queued | Running | Settled(fulfilled: bool)

  datatype Pred = Resolved | After(job: nat)

  // One promise of a chain: the work it waits for and how far its handler is.
  datatype Job = Job(key: Key, pred: Pred, status: Status)

  // jobs is in arrival order; cleaned holds the jobs whose `finally` callback has run.
  datatype State = State(jobs: seq<Job>, table: map<Key, nat>, cleaned: set<nat>)

  const INITIAL := State([], map[], {})

  // A change event arrives, a handler starts, a handler settles, a `finally` callback runs.
  datatype Event = Arrive(key: Key) | Start(job: nat) | Settle(job: nat, fulfilled: bool) | Cleanup(job: nat)

  predicate Done(s: State, i: nat) {
    i < |s.jobs| && s.jobs[i].status.Settled?
  }

  // The runtime may do e next. A handler starts when the promise before it has settled, either way.
  predicate Enabled(s: State, e: Event) {
    match e
    case Arrive(_) => true
    case Start(i) =>
      i < |s.jobs| && s.jobs[i].status.Queued? && (s.jobs[i].pred.After? ==> Done(s, s.jobs[i].pred.job))
    case Settle(i, _) => i < |s.jobs| && s.jobs[i].status.Running?
    case Cleanup(i) => Done(s, i)
  }

  function Step(s: State, e: Event): State
    requires Enabled(s, e)
  {
    match e
    case Arrive(key) =>
      var pred := if key in s.table then After(s.table[key]) else Resolved;
      s.(jobs := s.jobs + [Job(key, pred, Queued)], table := s.table[key := |s.jobs|])
    case Start(i) => s.(jobs := s.jobs[i := s.jobs[i].(status := Running)])
    case Settle(i, fulfilled) => s.(jobs := s.jobs[i := s.jobs[i].(status := Settled(fulfilled))])
    case Cleanup(i) =>
      var key := s.jobs[i].key;
      s.(cleaned := s.cleaned + {i},
         table := if key in s.table && s.table[key] == i then s.table - {key} else s.table)
  }

  // --- The map and its promises ---

  class DocumentChangeQueues {
    var jobs: seq<Job>
    var queues: map<Key, nat>
    var cleaned: set<nat>

    constructor ()
      ensures View() == INITIAL
    {
      jobs, queues, cleaned := [], map[], {};
    }

    function View(): State
      reads this
    {
      State(jobs, queues, cleaned)
    }

    // queueDocumentChangeProcessing
    method Queue(key: Key) returns (next: nat)
      modifies this
      ensures View() == Step(old(View()), Arrive(key)) && next == |old(jobs)|
    {
      var previous := if key in queues then After(queues[key]) else Resolved;
      next := |jobs|;
      jobs := jobs + [Job(key, previous, Queued)];
      queues := queues[key := next];
    }

    method StartHandler(job: nat)
      requires Enabled(View(), Start(job))
      modifies this
      ensures View() == Step(old(View()), Start(job))
    {
      jobs := jobs[job := jobs[job].(status := Running)];
    }

    method SettleHandler(job: nat, fulfilled: bool)
      requires Enabled(View(), Settle(job, fulfilled))
      modifies this
      ensures View() == Step(old(View()), Settle(job, fulfilled))
    {
      jobs := jobs[job := jobs[job].(status := Settled(fulfilled))];
    }

    method Finally(job: nat)
      requires Enabled(View(), Cleanup(job))
      modifies this
      ensures View() == Step(old(View()), Cleanup(job))
    {
      var key := jobs[job].key;
      if key in queues && queues[key] == job {
        queues := queues - {key};
      }
      cleaned := cleaned + {job};
    }
  }

  // --- What every step keeps ---

  ghost predicate EarlierDone(s: State, i: nat)
    requires i < |s.jobs|
  {
    forall j :: 0 <= j < i && s.jobs[j].key == s.jobs[i].key ==> Done(s, j)
  }

  // No job of this document arrived behind job i.
  ghost predicate IsLatest(s: State, i: nat) {
    i < |s.jobs| && forall j :: i < j < |s.jobs| ==> s.jobs[j].key != s.jobs[i].key
  }

  ghost predicate TableIsRight(s: State) {
    && (forall k <- s.table :: IsLatest(s, s.table[k]) && s.jobs[s.table[k]].key == k && s.table[k] !in s.cleaned)
    && (forall i :: 0 <= i < |s.jobs| && s.jobs[i].key !in s.table ==> Done(s, i))
  }

  ghost predicate ChainIsRight(s: State, i: nat)
    requires i < |s.jobs|
  {
    match s.jobs[i].pred
    case Resolved => EarlierDone(s, i)
    case After(p) => p < i && s.jobs[p].key == s.jobs[i].key
                     && forall j :: p < j < i ==> s.jobs[j].key != s.jobs[i].key
  }

  ghost predicate Inv(s: State) {
    && TableIsRight(s)
    && (forall i :: 0 <= i < |s.jobs| ==> ChainIsRight(s, i))
    && (forall i :: 0 <= i < |s.jobs| && !s.jobs[i].status.Queued? ==> EarlierDone(s, i))
    && (forall i <- s.cleaned :: Done(s, i))
  }

  lemma StepKeepsInv(s: State, e: Event)
    requires Inv(s) && Enabled(s, e)
    ensures Inv(Step(s, e))
  {
    match e
    case Arrive(key) => ArriveKeepsInv(s, key);
    case Start(i) => StartKeepsInv(s, i);
    case Settle(i, fulfilled) => SettleKeepsInv(s, i, fulfilled);
    case Cleanup(i) => CleanupKeepsInv(s, i);
  }

  lemma ArriveKeepsInv(s: State, key: Key)
    requires Inv(s)
    ensures Inv(Step(s, Arrive(key)))
  {
    var t := Step(s, Arrive(key));
    forall i | 0 <= i < |s.jobs|
      ensures ChainIsRight(t, i) && Done(t, i) == Done(s, i)
      ensures EarlierDone(s, i) ==> EarlierDone(t, i)
    {
      assert ChainIsRight(s, i);
    }
    assert ChainIsRight(t, |s.jobs|) by {
      if key in s.table {
        assert IsLatest(s, s.table[key]);
      }
    }
  }

  lemma StartKeepsInv(s: State, i: nat)
    requires Inv(s) && Enabled(s, Start(i))
    ensures Inv(Step(s, Start(i)))
    ensures EarlierDone(s, i)
  {
    var t := Step(s, Start(i));
    assert ChainIsRight(s, i);
    assert EarlierDone(s, i) by {
      if s.jobs[i].pred.After? {
        assert EarlierDone(s, s.jobs[i].pred.job);
      }
    }
    SameShape(s, t);
  }

  lemma SettleKeepsInv(s: State, i: nat, fulfilled: bool)
    requires Inv(s) && Enabled(s, Settle(i, fulfilled))
    ensures Inv(Step(s, Settle(i, fulfilled)))
  {
    SameShape(s, Step(s, Settle(i, fulfilled)));
  }

  // A step that keeps keys and predecessors, and undoes no job, keeps the chains and the table.
  lemma SameShape(s: State, t: State)
    requires Inv(s) && |t.jobs| == |s.jobs| && t.table == s.table && t.cleaned == s.cleaned
    requires forall j :: 0 <= j < |s.jobs| ==>
               t.jobs[j].key == s.jobs[j].key && t.jobs[j].pred == s.jobs[j].pred && (Done(s, j) ==> Done(t, j))
    ensures TableIsRight(t)
    ensures forall j :: 0 <= j < |s.jobs| ==> ChainIsRight(t, j) && (EarlierDone(s, j) ==> EarlierDone(t, j))
  {
    forall k | k in t.table
      ensures IsLatest(t, t.table[k])
    {
      assert IsLatest(s, s.table[k]);
    }
    forall j | 0 <= j < |s.jobs|
      ensures ChainIsRight(t, j) && (EarlierDone(s, j) ==> EarlierDone(t, j))
    {
      assert ChainIsRight(s, j);
    }
  }

  lemma CleanupKeepsInv(s: State, i: nat)
    requires Inv(s) && Enabled(s, Cleanup(i))
    ensures Inv(Step(s, Cleanup(i)))
  {
    var t := Step(s, Cleanup(i));
    forall j | 0 <= j < |s.jobs|
      ensures ChainIsRight(t, j) && Done(t, j) == Done(s, j)
      ensures EarlierDone(s, j) ==> EarlierDone(t, j)
    {
      assert ChainIsRight(s, j);
    }
    forall k | k in t.table
      ensures IsLatest(t, t.table[k])
    {
      assert IsLatest(s, s.table[k]);
    }
    assert EarlierDone(s, i);
  }

  // --- Whole runs ---

  ghost predicate IsRun(s: State, events: seq<Event>)
    decreases events
  {
    events == [] || (Enabled(s, events[0]) && IsRun(Step(s, events[0]), events[1..]))
  }

  ghost function Run(s: State, events: seq<Event>): State
    requires IsRun(s, events)
    decreases events
  {
    if events == [] then s else Run(Step(s, events[0]), events[1..])
  }

  lemma {:induction false} RunKeepsInv(s: State, events: seq<Event>)
    requires Inv(s) && IsRun(s, events)
    ensures Inv(Run(s, events))
    decreases events
  {
    if events != [] {
      StepKeepsInv(s, events[0]);
      RunKeepsInv(Step(s, events[0]), events[1..]);
    }
  }

  // In every interleaving: handlers of one document never overlap, a handler that has started had
  // all earlier work of its document behind it, and a missing entry means no work is left.
  lemma {:induction false} HandlersAreSerialized(events: seq<Event>, i: nat, j: nat)
    requires IsRun(INITIAL, events)
    requires var s := Run(INITIAL, events); i < j < |s.jobs| && s.jobs[i].key == s.jobs[j].key
    ensures var s := Run(INITIAL, events);
            && !(s.jobs[i].status.Running? && s.jobs[j].status.Running?)
            && (!s.jobs[j].status.Queued? ==> Done(s, i))
            && (s.jobs[j].key !in s.table ==> Done(s, i) && Done(s, j))
  {
    RunKeepsInv(INITIAL, events);
    var s := Run(INITIAL, events);
    if !s.jobs[j].status.Queued? {
      assert EarlierDone(s, j);
    }
  }

  function Arrivals(events: seq<Event>): seq<Key> {
    if events == [] then [] else (if events[0].Arrive? then [events[0].key] else []) + Arrivals(events[1..])
  }

  function Keys(jobs: seq<Job>): seq<Key> {
    seq(|jobs|, i requires 0 <= i < |jobs| => jobs[i].key)
  }

  // Every change event gets a handler of its own, in the order of the events.
  lemma {:induction false} EveryEventIsHandled(s: State, events: seq<Event>)
    requires IsRun(s, events)
    ensures Keys(Run(s, events).jobs) == Keys(s.jobs) + Arrivals(events)
    decreases events
  {
    if events != [] {
      var t := Step(s, events[0]);
      assert Keys(t.jobs) == Keys(s.jobs) + if events[0].Arrive? then [events[0].key] else [];
      hide Step, Enabled, Keys;
      EveryEventIsHandled(t, events[1..]);
    }
  }

  // The queue never gets stuck: while some handler has not settled, one can start or settle.
  lemma {:induction false} SomethingCanHappen(s: State, i: nat) returns (e: Event)
    requires Inv(s) && i < |s.jobs| && !Done(s, i)
    ensures Enabled(s, e) && (e.Start? || e.Settle?)
    decreases i
  {
    if s.jobs[i].status.Running? {
      return Settle(i, true);
    }
    assert ChainIsRight(s, i);
    if s.jobs[i].pred.After? && !Done(s, s.jobs[i].pred.job) {
      e := SomethingCanHappen(s, s.jobs[i].pred.job);
    } else {
      e := Start(i);
    }
  }

  // A handler that fails frees its successors like one that succeeds.
  lemma FailureDoesNotBlock(s: State, i: nat, e: Event)
    requires Enabled(s, Settle(i, false))
    ensures var (failed, done) := (Step(s, Settle(i, false)), Step(s, Settle(i, true)));
            && failed.jobs[i].status == Settled(false) && done.jobs[i].status == Settled(true)
            && (Enabled(failed, e) <==> Enabled(done, e))
  {
  }

  // The map does not leak: once every `finally` callback has run, it is empty.
  lemma NoLeak(s: State)
    requires Inv(s) && forall i :: 0 <= i < |s.jobs| ==> i in s.cleaned
    ensures s.table == map[]
  {
    if k :| k in s.table {
      EntryIsLive(s, k);
    }
  }

  lemma EntryIsLive(s: State, k: Key)
    requires Inv(s) && k in s.table
    ensures s.table[k] < |s.jobs| && s.table[k] !in s.cleaned
  {
    assert IsLatest(s, s.table[k]);
  }

  // --- Deactivation clears the map ---

  function Clear(s: State): State {
    s.(table := map[])
  }

  ghost predicate Overlap(s: State) {
    exists i, j :: 0 <= i < j < |s.jobs| && s.jobs[i].key == s.jobs[j].key &&
                   s.jobs[i].status.Running? && s.jobs[j].status.Running?
  }

  // Whatever happens from s on, no two handlers of one document are ever under way together.
  ghost predicate NeverOverlaps(s: State) {
    forall events: seq<Event> :: IsRun(s, events) ==> !Overlap(Run(s, events))
  }

  lemma InvNeverOverlaps(s: State)
    requires Inv(s)
    ensures NeverOverlaps(s)
  {
    forall events: seq<Event> | IsRun(s, events)
      ensures !Overlap(Run(s, events))
    {
      RunKeepsInv(s, events);
      var t := Run(s, events);
      forall i, j | 0 <= i < j < |t.jobs| && t.jobs[i].key == t.jobs[j].key && t.jobs[j].status.Running?
        ensures !t.jobs[i].status.Running?
      {
        assert EarlierDone(t, j);
      }
    }
  }

  // With nothing outstanding, the cleared map is as right as the full one.
  lemma ClearedWhenIdle(s: State)
    requires Inv(s) && forall i :: 0 <= i < |s.jobs| ==> Done(s, i)
    ensures Inv(Clear(s))
  {
    var t := Clear(s);
    forall i | 0 <= i < |s.jobs|
      ensures ChainIsRight(t, i) && Done(t, i) == Done(s, i) && EarlierDone(t, i) == EarlierDone(s, i)
    {
      assert ChainIsRight(s, i);
    }
  }

  lemma {:induction false} FirstUndone(s: State, i: nat) returns (k: nat)
    requires i < |s.jobs| && !Done(s, i)
    ensures k < |s.jobs| && !Done(s, k) && forall j :: 0 <= j < k ==> Done(s, j)
    decreases i
  {
    if j :| 0 <= j < i && !Done(s, j) {
      k := FirstUndone(s, j);
    } else {
      k := i;
    }
  }

  // Otherwise a new event of the first unsettled job's document starts beside that job.
  lemma OverlapAfterClear(s: State, i: nat) returns (events: seq<Event>)
    requires Inv(s) && i < |s.jobs| && !Done(s, i)
    ensures IsRun(Clear(s), events) && Overlap(Run(Clear(s), events))
  {
    var k := FirstUndone(s, i);
    var n := |s.jobs|;
    assert ChainIsRight(s, k);
    events := [Arrive(s.jobs[k].key), Start(n)];
    RunOfTwo(Clear(s), events[0], events[1]);
    var t := Run(Clear(s), events);
    assert t.jobs[k] == s.jobs[k] && t.jobs[n].status.Running? && t.jobs[n].key == s.jobs[k].key;
    if s.jobs[k].status.Queued? {
      assert s.jobs[k].pred.After? ==> Done(s, s.jobs[k].pred.job) && t.jobs[s.jobs[k].pred.job] == s.jobs[s.jobs[k].pred.job];
      RunPush(Clear(s), events, Start(k));
      events := events + [Start(k)];
      assert Run(Clear(s), events).jobs[k].status.Running? && Run(Clear(s), events).jobs[n].status.Running?;
    }
  }

  lemma {:induction false} RunOfTwo(s: State, e: Event, f: Event)
    requires Enabled(s, e) && Enabled(Step(s, e), f)
    ensures IsRun(s, [e, f]) && Run(s, [e, f]) == Step(Step(s, e), f)
  {
    assert [e, f][1..] == [f] && [f][1..] == [];
    hide Enabled, Step;
    assert IsRun(Step(Step(s, e), f), []);
    assert IsRun(Step(s, e), [f]) && Run(Step(s, e), [f]) == Step(Step(s, e), f);
  }

  lemma {:induction false} RunPush(s: State, events: seq<Event>, e: Event)
    requires IsRun(s, events) && Enabled(Run(s, events), e)
    ensures IsRun(s, events + [e]) && Run(s, events + [e]) == Step(Run(s, events), e)
    decreases events
  {
    hide Enabled, Step;
    if events == [] {
      assert events + [e] == [e] && [e][1..] == [];
      assert IsRun(Step(s, e), []);
    } else {
      assert (events + [e])[1..] == events[1..] + [e];
      RunPush(Step(s, events[0]), events[1..], e);
    }
  }

  // Clearing the map is safe for everything that may follow exactly when no work is outstanding.
  lemma ClearIsSafeIffIdle(s: State)
    requires Inv(s)
    ensures NeverOverlaps(Clear(s)) <==> forall i :: 0 <= i < |s.jobs| ==> Done(s, i)
  {
    if i :| 0 <= i < |s.jobs| && !Done(s, i) {
      var events := OverlapAfterClear(s, i);
    } else {
      ClearedWhenIdle(s);
      InvNeverOverlaps(Clear(s));
    }
  }

  // The shortest such run.
  lemma ClearCanOverlap(key: Key)
    ensures var s := Step(Step(INITIAL, Arrive(key)), Start(0));
            var t := Step(Step(Clear(s), Arrive(key)), Start(1));
            t.jobs[0].status.Running? && t.jobs[1].status.Running? && t.jobs[0].key == t.jobs[1].key
  {
  }
}
