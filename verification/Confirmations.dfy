// The pending-confirmation table of the WebSocket ingest client: waiters keyed by record id,
// each with a timer, settled by a confirmation, an error, a newer waiter, the timer or a close.
module Confirmations {

  const MAX_PENDING_CONFIRMATIONS := 50

  datatype Outcome = Confirmed | Superseded | TimedOut | Failed

  // settled records every call of the waiter's resolve or reject, in order.
  datatype Waiter = Waiter(key: string, timerLive: bool, settled: seq<Outcome>)

  datatype State = State(waiters: seq<Waiter>, table: map<string, nat>)

  const INITIAL := State([], map[])

  datatype Event =
    | Register(uuid: string)
    | Confirm(uuid: string)
    | Error(uuid: string)
    | FailAll               // an error without id, or a closed connection
    | Timeout(waiter: nat)

  // toLowerCase on ASCII ids.
  function Lower(s: string): string {
    seq(|s|, k requires 0 <= k < |s| => if 'A' <= s[k] <= 'Z' then s[k] - 'A' + 'a' else s[k])
  }

  predicate Enabled(s: State, e: Event) {
    e.Timeout? ==> e.waiter < |s.waiters| && s.waiters[e.waiter].timerLive
  }

  // What a waiter's own resolve and reject do: drop its key, stop its timer, settle its promise.
  function Settle(s: State, w: nat, outcome: Outcome): State
    requires w < |s.waiters|
  {
    var waiter := s.waiters[w];
    State(s.waiters[w := waiter.(timerLive := false, settled := waiter.settled + [outcome])],
          s.table - {waiter.key})
  }

  function SettleKey(s: State, key: string, outcome: Outcome): State {
    if key in s.table && s.table[key] < |s.waiters| then Settle(s, s.table[key], outcome) else s
  }

  predicate Waits(s: State, w: nat) {
    w < |s.waiters| && s.waiters[w].key in s.table && s.table[s.waiters[w].key] == w
  }

  function FailTable(s: State): State {
    State(seq(|s.waiters|, w requires 0 <= w < |s.waiters| =>
            if Waits(s, w)
            then s.waiters[w].(timerLive := false, settled := s.waiters[w].settled + [Failed])
            else s.waiters[w]),
          map[])
  }

  function Step(s: State, e: Event): State
    requires Enabled(s, e)
  {
    match e
    case Register(uuid) =>
      if |s.table| >= MAX_PENDING_CONFIRMATIONS then s
      else
        var t := SettleKey(s, Lower(uuid), Superseded);
        State(t.waiters + [Waiter(Lower(uuid), true, [])], t.table[Lower(uuid) := |t.waiters|])
    case Confirm(uuid) => SettleKey(s, Lower(uuid), Confirmed)
    case Error(uuid) => SettleKey(s, Lower(uuid), Failed)
    case FailAll => FailTable(s)
    case Timeout(w) => Settle(s, w, TimedOut)
  }

  // --- The client's methods ---

  class PendingConfirmations {
    var waiters: seq<Waiter>
    var pending: map<string, nat>

    constructor ()
      ensures View() == INITIAL
    {
      waiters, pending := [], map[];
    }

    function View(): State
      reads this
    {
      State(waiters, pending)
    }

    ghost predicate Valid()
      reads this
    {
      Inv(View())
    }

    method SettleWaiter(w: nat, outcome: Outcome)
      requires w < |waiters|
      modifies this
      ensures View() == Settle(old(View()), w, outcome)
    {
      var waiter := waiters[w];
      pending := pending - {waiter.key};
      waiters := waiters[w := waiter.(timerLive := false, settled := waiter.settled + [outcome])];
    }

    // A refused registration returns a rejected promise and leaves no waiter.
    method WaitForConfirmation(uuid: string) returns (accepted: bool)
      requires Valid()
      modifies this
      ensures View() == Step(old(View()), Register(uuid))
      ensures accepted <==> |old(pending)| < MAX_PENDING_CONFIRMATIONS
    {
      var key := Lower(uuid);
      if |pending| >= MAX_PENDING_CONFIRMATIONS {
        return false;
      }
      if key in pending {
        SettleWaiter(pending[key], Superseded);
      }
      pending := pending[key := |waiters|];
      waiters := waiters + [Waiter(key, true, [])];
      accepted := true;
    }

    method ResolveConfirmation(uuid: string)
      requires Valid()
      modifies this
      ensures View() == Step(old(View()), Confirm(uuid))
    {
      if Lower(uuid) in pending {
        SettleWaiter(pending[Lower(uuid)], Confirmed);
      }
    }

    method RejectConfirmation(uuid: string)
      requires Valid()
      modifies this
      ensures View() == Step(old(View()), Error(uuid))
    {
      if Lower(uuid) in pending {
        SettleWaiter(pending[Lower(uuid)], Failed);
      }
    }

    method TimerFires(w: nat)
      requires Enabled(View(), Timeout(w))
      modifies this
      ensures View() == Step(old(View()), Timeout(w))
    {
      SettleWaiter(w, TimedOut);
    }

    method RejectAllPendingConfirmations()
      requires Valid()
      modifies this
      ensures View() == Step(old(View()), FailAll)
    {
      while pending != map[]
        invariant Valid()
        invariant FailTable(View()) == FailTable(old(View()))
        decreases |pending|
      {
        var key :| key in pending;
        SettleKeyKeepsInv(View(), key, Failed);
        FailingOneFirst(View(), key);
        SettleWaiter(pending[key], Failed);
      }
    }
  }

  // --- What every step keeps ---

  // Unsettled, in the table and with a live timer are the same thing; nothing settles twice.
  ghost predicate WaiterIsRight(s: State, w: nat)
    requires w < |s.waiters|
  {
    && (Waits(s, w) <==> s.waiters[w].settled == [])
    && (s.waiters[w].timerLive <==> s.waiters[w].settled == [])
    && |s.waiters[w].settled| <= 1
  }

  ghost predicate TableIsRight(s: State) {
    forall k <- s.table :: s.table[k] < |s.waiters| && s.waiters[s.table[k]].key == k
  }

  ghost predicate Inv(s: State) {
    && TableIsRight(s)
    && (forall w :: 0 <= w < |s.waiters| ==> WaiterIsRight(s, w))
    && |s.table| <= MAX_PENDING_CONFIRMATIONS
  }

  lemma SettleKeepsInv(s: State, w: nat, outcome: Outcome)
    requires Inv(s) && Waits(s, w)
    ensures Inv(Settle(s, w, outcome)) && |Settle(s, w, outcome).table| < |s.table|
  {
    var t := Settle(s, w, outcome);
    assert WaiterIsRight(s, w);
    assert t.table.Keys == s.table.Keys - {s.waiters[w].key};
    forall v | 0 <= v < |t.waiters|
      ensures WaiterIsRight(t, v)
    {
      assert WaiterIsRight(s, v);
    }
  }

  lemma SettleKeyKeepsInv(s: State, key: string, outcome: Outcome)
    requires Inv(s)
    ensures Inv(SettleKey(s, key, outcome))
    ensures key !in SettleKey(s, key, outcome).table
    ensures |SettleKey(s, key, outcome).table| <= |s.table|
    ensures key in s.table ==> |SettleKey(s, key, outcome).table| < |s.table|
  {
    if key in s.table {
      assert Waits(s, s.table[key]);
      SettleKeepsInv(s, s.table[key], outcome);
    }
  }

  // rejectAll may take the entries in any order.
  lemma FailingOneFirst(s: State, key: string)
    requires Inv(s) && key in s.table
    ensures FailTable(SettleKey(s, key, Failed)) == FailTable(s)
  {
    var t := SettleKey(s, key, Failed);
    forall w | 0 <= w < |s.waiters|
      ensures FailTable(t).waiters[w] == FailTable(s).waiters[w]
    {
      assert WaiterIsRight(s, w);
      assert Waits(t, w) <==> Waits(s, w) && w != s.table[key];
    }
  }

  lemma StepKeepsInv(s: State, e: Event)
    requires Inv(s) && Enabled(s, e)
    ensures Inv(Step(s, e))
  {
    match e
    case Register(uuid) =>
      if |s.table| < MAX_PENDING_CONFIRMATIONS {
        SettleKeyKeepsInv(s, Lower(uuid), Superseded);
        AddKeepsInv(SettleKey(s, Lower(uuid), Superseded), Lower(uuid));
      }
    case Confirm(uuid) => SettleKeyKeepsInv(s, Lower(uuid), Confirmed);
    case Error(uuid) => SettleKeyKeepsInv(s, Lower(uuid), Failed);
    case FailAll =>
      forall w | 0 <= w < |s.waiters|
        ensures WaiterIsRight(FailTable(s), w)
      {
        assert WaiterIsRight(s, w);
      }
    case Timeout(w) =>
      assert WaiterIsRight(s, w);
      SettleKeepsInv(s, w, TimedOut);
  }

  lemma TableGrows(m: map<string, nat>, key: string, w: nat)
    requires key !in m
    ensures |m[key := w]| == |m| + 1
  {
    assert m[key := w].Keys == m.Keys + {key};
  }

  lemma AddedWaiterIsRight(s: State, key: string, w: nat)
    requires Inv(s) && key !in s.table && w <= |s.waiters|
    ensures WaiterIsRight(State(s.waiters + [Waiter(key, true, [])], s.table[key := |s.waiters|]), w)
  {
    if w < |s.waiters| {
      assert WaiterIsRight(s, w);
    }
  }

  lemma AddKeepsInv(s: State, key: string)
    requires Inv(s) && key !in s.table && |s.table| < MAX_PENDING_CONFIRMATIONS
    ensures Inv(State(s.waiters + [Waiter(key, true, [])], s.table[key := |s.waiters|]))
  {
    var t := State(s.waiters + [Waiter(key, true, [])], s.table[key := |s.waiters|]);
    TableGrows(s.table, key, |s.waiters|);
    forall w | 0 <= w < |t.waiters|
      ensures WaiterIsRight(t, w)
    {
      AddedWaiterIsRight(s, key, w);
    }
    hide WaiterIsRight;
  }

  // A step takes an entry out of the table only by settling the very waiter it belongs to, and
  // settles a waiter for the reason that fits the event and the waiter's own key.
  ghost predicate Fits(e: Event, w: nat, waiter: Waiter, outcome: Outcome) {
    match e
    case Register(uuid) => outcome == Superseded && Lower(uuid) == waiter.key
    case Confirm(uuid) => outcome == Confirmed && Lower(uuid) == waiter.key
    case Error(uuid) => outcome == Failed && Lower(uuid) == waiter.key
    case FailAll => outcome == Failed
    case Timeout(v) => outcome == TimedOut && v == w
  }

  ghost predicate SettlesItsOwn(s: State, t: State, e: Event, w: nat)
    requires w < |s.waiters|
  {
    && |t.waiters| >= |s.waiters| && t.waiters[w].key == s.waiters[w].key
    && (t.waiters[w].settled == s.waiters[w].settled ||
        (Waits(s, w) && exists o :: t.waiters[w].settled == [o] && Fits(e, w, s.waiters[w], o)))
    && (Waits(s, w) ==> Waits(t, w) || t.waiters[w].settled != [])
  }

  lemma SettleSettlesItsOwn(s: State, e: Event, v: nat, outcome: Outcome, w: nat)
    requires Inv(s) && w < |s.waiters| && Waits(s, v) && Fits(e, v, s.waiters[v], outcome)
    ensures SettlesItsOwn(s, Settle(s, v, outcome), e, w)
  {
    assert WaiterIsRight(s, w) && WaiterIsRight(s, v);
    if v == w {
      assert Settle(s, v, outcome).waiters[w].settled == [outcome];
    }
  }

  lemma StepSettlesItsOwn(s: State, e: Event, w: nat)
    requires Inv(s) && Enabled(s, e) && w < |s.waiters|
    ensures SettlesItsOwn(s, Step(s, e), e, w)
  {
    assert WaiterIsRight(s, w);
    match e
    case FailAll =>
      if Waits(s, w) {
        assert FailTable(s).waiters[w].settled == [Failed];
      }
    case Timeout(v) =>
      assert WaiterIsRight(s, v);
      SettleSettlesItsOwn(s, e, v, TimedOut, w);
    case Register(uuid) =>
      if |s.table| < MAX_PENDING_CONFIRMATIONS && Lower(uuid) in s.table {
        SettleSettlesItsOwn(s, e, s.table[Lower(uuid)], Superseded, w);
      }
    case Confirm(uuid) =>
      if Lower(uuid) in s.table {
        SettleSettlesItsOwn(s, e, s.table[Lower(uuid)], Confirmed, w);
      }
    case Error(uuid) =>
      if Lower(uuid) in s.table {
        SettleSettlesItsOwn(s, e, s.table[Lower(uuid)], Failed, w);
      }
  }

  // An accepted waiter is the one that a confirmation of its id reaches.
  lemma ConfirmReachesTheNewest(s: State, uuid: string, answer: string)
    requires Inv(s) && |s.table| < MAX_PENDING_CONFIRMATIONS && Lower(uuid) == Lower(answer)
    ensures var t := Step(s, Register(uuid));
            var w := |t.waiters| - 1;
            0 <= w && Waits(t, w) && Step(t, Confirm(answer)).waiters[w].settled == [Confirmed]
  {
  }

  // --- Whole runs ---

  ghost predicate IsRun(s: State, events: seq<Event>)
    decreases events
  {
    events == [] || (Enabled(s, events[0]) && IsRun(Step(s, events[0]), events[1..]))
  }

  ghost function Run(s: State, events: seq<Event>): State
    requires IsRun(s, events)
    decreases events
  {
    if events == [] then s else Run(Step(s, events[0]), events[1..])
  }

  lemma {:induction false} RunKeepsInv(s: State, events: seq<Event>)
    requires Inv(s) && IsRun(s, events)
    ensures Inv(Run(s, events))
    decreases events
  {
    if events != [] {
      StepKeepsInv(s, events[0]);
      RunKeepsInv(Step(s, events[0]), events[1..]);
    }
  }

  // In every run a waiter settles at most once, and it is unsettled exactly while it is in the
  // table with a live timer, so its time-out can still settle it; the table stays bounded.
  lemma {:induction false} SettledExactlyOnce(events: seq<Event>, w: nat)
    requires IsRun(INITIAL, events) && w < |Run(INITIAL, events).waiters|
    ensures var s := Run(INITIAL, events);
            && |s.table| <= 50
            && |s.waiters[w].settled| <= 1
            && (s.waiters[w].settled == [] <==> Waits(s, w))
            && (s.waiters[w].settled == [] <==> s.waiters[w].timerLive)
            && (s.waiters[w].timerLive ==>
                  Enabled(s, Timeout(w)) && Step(s, Timeout(w)).waiters[w].settled == [TimedOut])
  {
    RunKeepsInv(INITIAL, events);
    assert WaiterIsRight(Run(INITIAL, events), w);
  }


  // --- Which waiters an event reaches ---

  // An unsettled waiter that the event speaks of, and what it is told.
  ghost predicate Hits(s: State, e: Event, w: nat)
    requires w < |s.waiters|
  {
    s.waiters[w].settled == [] &&
    match e
    case Register(uuid) => |s.table| < 50 && s.waiters[w].key == Lower(uuid)
    case Confirm(uuid) => s.waiters[w].key == Lower(uuid)
    case Error(uuid) => s.waiters[w].key == Lower(uuid)
    case FailAll => true
    case Timeout(v) => v == w
  }

  function Told(e: Event): Outcome {
    match e
    case Register(_) => Superseded
    case Confirm(_) => Confirmed
    case Error(_) => Failed
    case FailAll => Failed
    case Timeout(_) => TimedOut
  }

  // Every event settles exactly the waiters it speaks of, each with what it is told.
  lemma EventReachesExactly(s: State, e: Event, w: nat)
    requires Inv(s) && Enabled(s, e) && w < |s.waiters|
    ensures |Step(s, e).waiters| >= |s.waiters|
    ensures Step(s, e).waiters[w].settled == s.waiters[w].settled + if Hits(s, e, w) then [Told(e)] else []
  {
    assert WaiterIsRight(s, w);
    match e
    case Register(uuid) => KeyReachesExactly(s, Lower(uuid), Superseded, w);
    case Confirm(uuid) => KeyReachesExactly(s, Lower(uuid), Confirmed, w);
    case Error(uuid) => KeyReachesExactly(s, Lower(uuid), Failed, w);
    case FailAll =>
    case Timeout(v) => assert WaiterIsRight(s, v);
  }

  lemma KeyReachesExactly(s: State, key: string, outcome: Outcome, w: nat)
    requires Inv(s) && w < |s.waiters|
    ensures |SettleKey(s, key, outcome).waiters| == |s.waiters|
    ensures SettleKey(s, key, outcome).waiters[w].settled ==
            if s.waiters[w].settled == [] && s.waiters[w].key == key then [outcome] else s.waiters[w].settled
  {
    assert WaiterIsRight(s, w);
    if key in s.table {
      assert WaiterIsRight(s, s.table[key]);
    }
  }

  // A registration is accepted exactly below fifty entries, and then adds one waiting waiter.
  lemma RegisterIsRight(s: State, uuid: string)
    requires Inv(s)
    ensures var t := Step(s, Register(uuid));
            if |s.table| < 50
            then && |t.waiters| == |s.waiters| + 1 && t.waiters[|s.waiters|] == Waiter(Lower(uuid), true, [])
                 && Waits(t, |s.waiters|)
            else t == s
  {
    SettleKeyKeepsInv(s, Lower(uuid), Superseded);
  }

  // Two ids are the same exactly up to the case of their ASCII letters.
  ghost predicate SameUpToCase(c: char, d: char) {
    c == d || ('A' <= c <= 'Z' && d as int == c as int + 32) || ('A' <= d <= 'Z' && c as int == d as int + 32)
  }

  lemma {:induction false} LowerIgnoresCase(s: string, t: string)
    ensures Lower(s) == Lower(t) <==> |s| == |t| && forall k :: 0 <= k < |s| ==> SameUpToCase(s[k], t[k])
  {
    LowerIsPointwise(s);
    LowerIsPointwise(t);
    hide Lower;
    if Lower(s) == Lower(t) {
      forall k | 0 <= k < |s|
        ensures SameUpToCase(s[k], t[k])
      {
        assert Lower(s)[k] == Lower(t)[k];
      }
    }
  }

  lemma {:induction false} LowerIsPointwise(s: string)
    ensures |Lower(s)| == |s|
    ensures forall k :: 0 <= k < |s| ==>
              Lower(s)[k] as int == if 'A' <= s[k] <= 'Z' then s[k] as int + 32 else s[k] as int
  {
  }
}
