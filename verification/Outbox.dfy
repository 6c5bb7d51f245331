// The persistent outbox of the base extension: entries whose first send failed are stored, and
// a timer re-arms itself to retry them with exponential backoff. A retry works on the copy it
// loaded and saves what is left of it.
module Outbox {

  const MAX_OUTBOX := 200
  const RETRY_BASE_MS := 30000
  const RETRY_MAX_MS := 600000
  const SENT := -1  // the attempts value that marks an entry for removal

  datatype Entry = Entry(id: string, attempts: int, nextRetryAt: int)

  // A retry waits for its token, then works through the due entries of its copy, by index.
  datatype Retry =
    | Waiting
    | Sending(copy: seq<Entry>, due: seq<nat>, now: int, changed: bool)
    | Over

  // live holds the ids that were enqueued and neither sent nor pushed out by the cap.
  datatype State = State(stored: seq<Entry>, timer: bool, retries: seq<Retry>, live: set<string>)

  const INITIAL := State([], false, [], {})

  datatype Event =
    | Enqueue(entry: Entry)          // a first send failed
    | TimerFires
    | CallRetry                      // on activation
    | Load(retry: nat, now: int)     // the token is there: load the outbox
    | Unconfigured(retry: nat)       // no URL or no token: give up
    | SendOk(retry: nat)
    | SendFail(retry: nat)
    | Finish(retry: nat)

  // --- Queue mechanics ---

  function IndexOf(entries: seq<Entry>, id: string): (r: nat)
    ensures r <= |entries|
    ensures r < |entries| ==> entries[r].id == id
    ensures forall k :: 0 <= k < r ==> entries[k].id != id
  {
    if entries == [] || entries[0].id == id then 0 else 1 + IndexOf(entries[1..], id)
  }

  function EnqueueEntry(entries: seq<Entry>, entry: Entry, max: nat): seq<Entry> {
    var k := IndexOf(entries, entry.id);
    var next := if k < |entries| then entries[k := entry] else entries + [entry];
    if |next| > max then next[|next| - max..] else next
  }

  function Pow2(n: nat): nat {
    if n == 0 then 1 else 2 * Pow2(n - 1)
  }

  function BackoffDelay(attempts: int): int {
    var delay := RETRY_BASE_MS * Pow2(if attempts - 1 > 0 then attempts - 1 else 0);
    if delay < RETRY_MAX_MS then delay else RETRY_MAX_MS
  }

  // Indices of the entries whose time has come.
  function DueFrom(entries: seq<Entry>, now: int, k: nat): (r: seq<nat>)
    requires k <= |entries|
    ensures forall l <- r :: k <= l < |entries| && entries[l].nextRetryAt <= now
    ensures forall l :: k <= l < |entries| && entries[l].nextRetryAt <= now ==> l in r
    ensures forall a, b :: 0 <= a < b < |r| ==> r[a] < r[b]
    decreases |entries| - k
  {
    if k == |entries| then []
    else
      var rest := DueFrom(entries, now, k + 1);
      assert forall b :: 0 <= b < |rest| ==> rest[b] in rest;
      (if entries[k].nextRetryAt <= now then [k] else []) + rest
  }

  function Remaining(copy: seq<Entry>): (r: seq<Entry>)
    ensures forall e <- r :: e in copy && e.attempts != SENT
    ensures forall e <- copy :: e.attempts != SENT ==> e in r
  {
    if copy == [] then []
    else (if copy[0].attempts != SENT then [copy[0]] else []) + Remaining(copy[1..])
  }

  // --- Steps ---

  predicate IsSending(s: State, r: nat) {
    r < |s.retries| && s.retries[r].Sending?
  }

  predicate IsWaiting(s: State, r: nat) {
    r < |s.retries| && s.retries[r].Waiting?
  }

  predicate NextDue(s: State, r: nat) {
    IsSending(s, r) && s.retries[r].due != [] && s.retries[r].due[0] < |s.retries[r].copy|
  }

  predicate Enabled(s: State, e: Event) {
    match e
    case Enqueue(entry) => entry.attempts == 1
    case TimerFires => s.timer
    case CallRetry => true
    case Load(r, _) => IsWaiting(s, r)
    case Unconfigured(r) => IsWaiting(s, r)
    case SendOk(r) => NextDue(s, r)
    case SendFail(r) => NextDue(s, r)
    case Finish(r) => IsSending(s, r) && s.retries[r].due == []
  }

  function Mark(retry: Retry, sent: bool): Retry
    requires retry.Sending? && retry.due != [] && retry.due[0] < |retry.copy|
  {
    var k := retry.due[0];
    var entry := retry.copy[k];
    var attempts := if sent then SENT else entry.attempts + 1;
    retry.(copy := retry.copy[k := entry.(attempts := attempts,
                                          nextRetryAt := if sent then entry.nextRetryAt
                                                         else retry.now + BackoffDelay(attempts))],
           due := retry.due[1..], changed := true)
  }

  function Ids(entries: seq<Entry>): set<string> {
    set e <- entries :: e.id
  }

  function Step(s: State, e: Event): State
    requires Enabled(s, e)
  {
    match e
    case Enqueue(entry) =>
      var next := EnqueueEntry(s.stored, entry, MAX_OUTBOX);
      s.(stored := next, timer := true, live := (s.live + {entry.id}) * Ids(next))
    case TimerFires => s.(timer := false, retries := s.retries + [Waiting])
    case CallRetry => s.(retries := s.retries + [Waiting])
    case Load(r, now) =>
      var retry := if s.stored == [] then Over else Sending(s.stored, DueFrom(s.stored, now, 0), now, false);
      s.(retries := s.retries[r := retry])
    case Unconfigured(r) => s.(retries := s.retries[r := Over])
    case SendOk(r) =>
      var retry := s.retries[r];
      s.(retries := s.retries[r := Mark(retry, true)], live := s.live - {retry.copy[retry.due[0]].id})
    case SendFail(r) => s.(retries := s.retries[r := Mark(s.retries[r], false)])
    case Finish(r) =>
      var remaining := Remaining(s.retries[r].copy);
      s.(retries := s.retries[r := Over],
         stored := if s.retries[r].changed then remaining else s.stored,
         timer := s.timer || remaining != [])
  }

  // --- The service's methods; a retry is cut at each awaited call ---

  class CaptureOutbox {
    var stored: seq<Entry>
    var retryTimer: bool
    var retries: seq<Retry>
    ghost var live: set<string>

    constructor ()
      ensures View() == INITIAL
    {
      stored, retryTimer, retries, live := [], false, [], {};
    }

    ghost function View(): State
      reads this
    {
      State(stored, retryTimer, retries, live)
    }

    method Enqueue(entry: Entry)
      requires Enabled(View(), Event.Enqueue(entry))
      modifies this
      ensures View() == Step(old(View()), Event.Enqueue(entry))
    {
      stored := EnqueueEntry(stored, entry, MAX_OUTBOX);
      live := (live + {entry.id}) * Ids(stored);
      ScheduleRetry();
    }

    method ScheduleRetry()
      modifies this`retryTimer
      ensures retryTimer
    {
      if !retryTimer {
        retryTimer := true;
      }
    }

    method TimerCallback()
      requires Enabled(View(), TimerFires)
      modifies this
      ensures View() == Step(old(View()), TimerFires)
    {
      retryTimer := false;
      retries := retries + [Waiting];
    }

    method LoadOutbox(r: nat, now: int)
      requires Enabled(View(), Load(r, now))
      modifies this
      ensures View() == Step(old(View()), Load(r, now))
    {
      if |stored| == 0 {
        retries := retries[r := Over];
      } else {
        retries := retries[r := Sending(stored, DueFrom(stored, now, 0), now, false)];
      }
    }

    method SendSucceeds(r: nat)
      requires Enabled(View(), SendOk(r))
      modifies this
      ensures View() == Step(old(View()), SendOk(r))
    {
      var retry := retries[r];
      live := live - {retry.copy[retry.due[0]].id};
      retries := retries[r := Mark(retry, true)];
    }

    method SendFails(r: nat)
      requires Enabled(View(), SendFail(r))
      modifies this
      ensures View() == Step(old(View()), SendFail(r))
    {
      retries := retries[r := Mark(retries[r], false)];
    }

    method FinishRetry(r: nat)
      requires Enabled(View(), Finish(r))
      modifies this
      ensures View() == Step(old(View()), Finish(r))
    {
      var remaining := Remaining(retries[r].copy);
      if retries[r].changed {
        stored := remaining;
      }
      retries := retries[r := Over];
      if |remaining| > 0 {
        ScheduleRetry();
      }
    }
  }

  // --- What every calm step keeps ---

  // Settings are there, and nothing is enqueued between a retry's load and its save.
  ghost predicate Calm(s: State, e: Event) {
    && !e.Unconfigured?
    && (e.Enqueue? ==> forall r :: 0 <= r < |s.retries| ==> !s.retries[r].Sending?)
  }

  // The entry is in the list and not marked as sent.
  ghost predicate Holds(entries: seq<Entry>, id: string) {
    exists k :: 0 <= k < |entries| && entries[k].id == id && entries[k].attempts != SENT
  }

  ghost predicate Counts(entries: seq<Entry>) {
    forall k :: 0 <= k < |entries| ==> entries[k].attempts >= 1
  }

  ghost predicate RetryIsRight(s: State, retry: Retry) {
    retry.Sending? ==>
      && retry.copy != []
      && (forall id <- s.live :: Holds(retry.copy, id))
      && (forall k :: 0 <= k < |retry.copy| ==> retry.copy[k].attempts >= 1 || retry.copy[k].attempts == SENT)
      && (!retry.changed ==> Counts(retry.copy))
      && (forall d :: 0 <= d < |retry.due| ==>
            retry.due[d] < |retry.copy| && retry.copy[retry.due[d]].attempts >= 1)
      && (forall c, d :: 0 <= c < d < |retry.due| ==> retry.due[c] != retry.due[d])
  }

  // A nonempty outbox has a timer armed or a retry under way.
  ghost predicate SomeoneCares(s: State) {
    s.stored != [] ==> s.timer || exists r :: 0 <= r < |s.retries| && !s.retries[r].Over?
  }

  ghost predicate Inv(s: State) {
    && Counts(s.stored)
    && (forall id <- s.live :: Holds(s.stored, id))
    && (forall r :: 0 <= r < |s.retries| ==> RetryIsRight(s, s.retries[r]))
    && SomeoneCares(s)
  }

  lemma StepKeepsInv(s: State, e: Event)
    requires Inv(s) && Enabled(s, e) && Calm(s, e)
    ensures Inv(Step(s, e))
  {
    match e
    case Enqueue(entry) => EnqueueKeepsInv(s, entry);
    case TimerFires => assert Step(s, e).retries[|s.retries|].Waiting?;
    case CallRetry => assert Step(s, e).retries[|s.retries|].Waiting?;
    case Load(r, now) => LoadKeepsInv(s, r, now);
    case SendOk(r) => MarkKeepsInv(s, e, r, true);
    case SendFail(r) => MarkKeepsInv(s, e, r, false);
    case Finish(r) => FinishKeepsInv(s, r);
  }

  lemma EnqueueKeepsInv(s: State, entry: Entry)
    requires Inv(s) && Enabled(s, Enqueue(entry)) && Calm(s, Enqueue(entry))
    ensures Inv(Step(s, Enqueue(entry)))
  {
    var next := EnqueueEntry(s.stored, entry, MAX_OUTBOX);
    forall k | 0 <= k < |next|
      ensures next[k].attempts >= 1
    {
    }
    forall id | id in Ids(next)
      ensures Holds(next, id)
    {
      var e :| e in next && e.id == id;
      var k :| 0 <= k < |next| && next[k] == e;
    }
  }

  lemma LoadKeepsInv(s: State, r: nat, now: int)
    requires Inv(s) && Enabled(s, Load(r, now))
    ensures Inv(Step(s, Load(r, now)))
  {
    var t := Step(s, Load(r, now));
    var due := DueFrom(s.stored, now, 0);
    forall d | 0 <= d < |due|
      ensures due[d] < |s.stored|
    {
      assert due[d] in due;
    }
    if s.stored != [] {
      assert !t.retries[r].Over?;
    }
  }

  lemma MarkKeepsInv(s: State, e: Event, r: nat, sent: bool)
    requires Inv(s) && Enabled(s, e) && e == (if sent then SendOk(r) else SendFail(r))
    ensures Inv(Step(s, e))
  {
    var t := Step(s, e);
    var before := s.retries[r];
    var after := t.retries[r];
    var k := before.due[0];
    assert RetryIsRight(s, before);
    forall id | id in t.live
      ensures Holds(after.copy, id)
    {
      var l :| 0 <= l < |before.copy| && before.copy[l].id == id && before.copy[l].attempts != SENT;
      assert after.copy[l].id == id && after.copy[l].attempts != SENT;
    }
    assert RetryIsRight(t, after);
    forall q | 0 <= q < |t.retries|
      ensures RetryIsRight(t, t.retries[q])
    {
      assert RetryIsRight(s, s.retries[q]);
    }
    assert !t.retries[r].Over?;
  }

  lemma FinishKeepsInv(s: State, r: nat)
    requires Inv(s) && Enabled(s, Finish(r))
    ensures Inv(Step(s, Finish(r)))
  {
    var t := Step(s, Finish(r));
    var copy := s.retries[r].copy;
    var remaining := Remaining(copy);
    assert RetryIsRight(s, s.retries[r]);
    forall k | 0 <= k < |remaining|
      ensures remaining[k].attempts >= 1
    {
      assert remaining[k] in remaining;
      var l :| 0 <= l < |copy| && copy[l] == remaining[k];
    }
    forall id | id in s.live
      ensures Holds(remaining, id)
    {
      var k :| 0 <= k < |copy| && copy[k].id == id && copy[k].attempts != SENT;
      assert copy[k] in remaining;
      var l :| 0 <= l < |remaining| && remaining[l] == copy[k];
    }
    if !s.retries[r].changed {
      assert copy[0].attempts >= 1 && copy[0] in copy;
      assert copy[0] in remaining;
    }
    forall q | 0 <= q < |t.retries|
      ensures RetryIsRight(t, t.retries[q])
    {
      assert RetryIsRight(s, s.retries[q]);
    }
  }

  // --- Whole runs ---

  ghost predicate IsRun(s: State, events: seq<Event>)
    decreases events
  {
    events == [] || (Enabled(s, events[0]) && IsRun(Step(s, events[0]), events[1..]))
  }

  ghost function Run(s: State, events: seq<Event>): State
    requires IsRun(s, events)
    decreases events
  {
    if events == [] then s else Run(Step(s, events[0]), events[1..])
  }

  ghost predicate AllCalm(s: State, events: seq<Event>)
    requires IsRun(s, events)
    decreases events
  {
    events == [] || (Calm(s, events[0]) && AllCalm(Step(s, events[0]), events[1..]))
  }

  lemma {:induction false} RunKeepsInv(s: State, events: seq<Event>)
    requires Inv(s) && IsRun(s, events) && AllCalm(s, events)
    ensures Inv(Run(s, events))
    decreases events
  {
    if events != [] {
      StepKeepsInv(s, events[0]);
      RunKeepsInv(Step(s, events[0]), events[1..]);
    }
  }

  // An entry that is still to be sent drops out only when its own send is acknowledged, or when a
  // new entry pushes it over the cap, oldest first.
  lemma LeavesOnlyWhenSentOrCrowdedOut(s: State, e: Event, id: string)
    requires Inv(s) && Enabled(s, e) && id in s.live && id !in Step(s, e).live
    ensures (e.SendOk? && s.retries[e.retry].copy[s.retries[e.retry].due[0]].id == id) ||
            (e.Enqueue? && |s.stored| >= 200 && id in Ids(s.stored[..|s.stored| - 199]))
  {
    if e.Enqueue? {
      assert Holds(s.stored, id);
      var k :| 0 <= k < |s.stored| && s.stored[k].id == id;
      CrowdedOut(s.stored, e.entry, k);
    }
  }

  // And it gets in: the entry of a failed send is stored as it comes.
  lemma EnqueuedIsStored(s: State, entry: Entry)
    requires Enabled(s, Enqueue(entry)) && Capped(s)
    ensures var t := Step(s, Enqueue(entry)); entry.id in t.live && entry in t.stored && t.timer
  {
    EnqueueKeepsEntry(s.stored, entry);
    hide EnqueueEntry;
  }

  lemma EnqueueKeepsEntry(entries: seq<Entry>, entry: Entry)
    requires |entries| <= 200
    ensures entry in EnqueueEntry(entries, entry, MAX_OUTBOX) && |EnqueueEntry(entries, entry, MAX_OUTBOX)| <= 200
  {
    var k, next := IndexOf(entries, entry.id), EnqueueEntry(entries, entry, MAX_OUTBOX);
    if k < |entries| {
      assert next[k] == entry;
    } else {
      assert next[|next| - 1] == entry;
    }
  }

  // At most two hundred entries are stored, and no retry works on more.
  ghost predicate Capped(s: State) {
    |s.stored| <= 200 && forall r :: 0 <= r < |s.retries| && s.retries[r].Sending? ==> |s.retries[r].copy| <= 200
  }

  lemma StepKeepsCapped(s: State, e: Event)
    requires Capped(s) && Enabled(s, e)
    ensures Capped(Step(s, e))
  {
    if e.Enqueue? {
      EnqueueKeepsEntry(s.stored, e.entry);
    } else if e.Finish? {
      RemainingIsShorter(s.retries[e.retry].copy);
    }
    hide EnqueueEntry, Remaining, DueFrom, BackoffDelay;
  }

  lemma {:induction false} RemainingIsShorter(copy: seq<Entry>)
    ensures |Remaining(copy)| <= |copy|
  {
    if copy != [] {
      RemainingIsShorter(copy[1..]);
    }
  }

  // So it is in every run, whatever comes in or overlaps.
  lemma {:induction false} RunKeepsCapped(s: State, events: seq<Event>)
    requires Capped(s) && IsRun(s, events)
    ensures Capped(Run(s, events))
    decreases events
  {
    if events != [] {
      StepKeepsCapped(s, events[0]);
      RunKeepsCapped(Step(s, events[0]), events[1..]);
    }
  }

  // The timer is armed exactly from a failed send, or from a retry that leaves something unsent,
  // until it fires.
  lemma {:induction false} TimerIsArmedExactly(s: State, e: Event)
    requires Enabled(s, e)
    ensures Step(s, e).timer <==>
            || e.Enqueue? || (s.timer && !e.TimerFires?)
            || (e.Finish? && exists entry <- s.retries[e.retry].copy :: entry.attempts != -1)
  {
    if e.Finish? {
      var copy := s.retries[e.retry].copy;
      if Remaining(copy) != [] {
        assert Remaining(copy)[0] in Remaining(copy);
      }
    }
    hide EnqueueEntry, DueFrom, Mark;
  }

  lemma {:induction false} CrowdedOut(entries: seq<Entry>, entry: Entry, k: nat)
    requires k < |entries| && entries[k].id !in Ids(EnqueueEntry(entries, entry, MAX_OUTBOX))
    requires entries[k].id != entry.id || IndexOf(entries, entry.id) < |entries|
    ensures |entries| >= MAX_OUTBOX
    ensures entries[k].id in Ids(entries[..|entries| + 1 - MAX_OUTBOX])
  {
    var j := IndexOf(entries, entry.id);
    var next := if j < |entries| then entries[j := entry] else entries + [entry];
    var drop := if |next| > MAX_OUTBOX then |next| - MAX_OUTBOX else 0;
    assert next[k].id == entries[k].id;
    if k < drop {
      assert entries[..|entries| + 1 - MAX_OUTBOX][k] == entries[k];
      assert entries[k] in entries[..|entries| + 1 - MAX_OUTBOX];
    }
  }

  // A send that failed is counted, and its entry waits from the retry's start for the delay of its
  // new count; a send that succeeded is marked; no other entry of the copy changes.
  lemma SendTouchesItsEntryOnly(s: State, r: nat, sent: bool, k: nat)
    requires Inv(s) && NextDue(s, r) && k < |s.retries[r].copy|
    ensures var (before, after) := (s.retries[r], Step(s, if sent then SendOk(r) else SendFail(r)).retries[r]);
            && after.Sending? && after.changed && after.due == before.due[1..] && |after.copy| == |before.copy|
            && (if k != before.due[0] then after.copy[k] == before.copy[k]
                else && after.copy[k].id == before.copy[k].id
                     && (sent <==> after.copy[k].attempts == SENT)
                     && (!sent ==> && after.copy[k].attempts == before.copy[k].attempts + 1
                                   && after.copy[k].nextRetryAt - before.now == BackoffDelay(after.copy[k].attempts)
                                   && 60000 <= after.copy[k].nextRetryAt - before.now <= 600000))
  {
    var entry := s.retries[r].copy[s.retries[r].due[0]];
    assert RetryIsRight(s, s.retries[r]);
    BackoffDoublesToCeiling(entry.attempts);
    BackoffDoublesToCeiling(entry.attempts + 1);
  }

  // What an earlier session left in the outbox; activation calls for a retry.
  function Activated(stored: seq<Entry>): State {
    State(stored, false, [Waiting], Ids(stored))
  }

  lemma ActivationIsRight(stored: seq<Entry>)
    requires Counts(stored)
    ensures Inv(Activated(stored))
  {
    forall id | id in Ids(stored)
      ensures Holds(stored, id)
    {
      var e :| e in stored && e.id == id;
      var k :| 0 <= k < |stored| && stored[k] == e;
    }
    assert !Activated(stored).retries[0].Over?;
  }

  // In every calm run from activation on, overlapping retries included: an entry that was stored or
  // enqueued, not sent and not pushed out by the cap is in the outbox, no stored attempt count is
  // the removal mark, and a nonempty outbox has a timer armed or a retry under way.
  lemma {:induction false} NothingIsLostOrStranded(stored: seq<Entry>, events: seq<Event>)
    requires Counts(stored) && IsRun(Activated(stored), events) && AllCalm(Activated(stored), events)
    ensures var s := Run(Activated(stored), events);
            && (forall id <- s.live :: id in Ids(s.stored))
            && Counts(s.stored) && (forall entry <- s.stored :: entry.attempts != SENT)
            && SomeoneCares(s)
  {
    ActivationIsRight(stored);
    RunKeepsInv(Activated(stored), events);
    var s := Run(Activated(stored), events);
    forall id | id in s.live
      ensures id in Ids(s.stored)
    {
      assert Holds(s.stored, id);
    }
  }

  // --- Where the conditions are needed ---

  // What a retry keeps of its load until it finishes: whose entries its copy holds, and that it has
  // something to save exactly when it has worked on some due entry.
  ghost predicate Remembers(s: State, r: nat, ids: set<string>, dueAtLoad: nat) {
    && r < |s.retries| && !s.retries[r].Waiting?
    && (s.retries[r].Sending? ==>
          && Ids(s.retries[r].copy) == ids
          && |s.retries[r].due| <= dueAtLoad && (s.retries[r].changed <==> |s.retries[r].due| < dueAtLoad))
  }

  lemma MarkKeepsIds(retry: Retry, sent: bool)
    requires retry.Sending? && retry.due != [] && retry.due[0] < |retry.copy|
    ensures Ids(Mark(retry, sent).copy) == Ids(retry.copy)
  {
    var k, before, after := retry.due[0], retry.copy, Mark(retry, sent).copy;
    hide BackoffDelay;
    forall id | id in Ids(before)
      ensures id in Ids(after)
    {
      var l :| 0 <= l < |before| && before[l].id == id;
      assert after[l] in after && after[l].id == id;
    }
    forall id | id in Ids(after)
      ensures id in Ids(before)
    {
      var l :| 0 <= l < |after| && after[l].id == id;
      assert before[l] in before && before[l].id == id;
    }
  }

  lemma StepRemembers(s: State, e: Event, r: nat, ids: set<string>, dueAtLoad: nat)
    requires Enabled(s, e) && Remembers(s, r, ids, dueAtLoad)
    ensures Remembers(Step(s, e), r, ids, dueAtLoad)
  {
    if (e.SendOk? || e.SendFail?) && e.retry == r {
      MarkKeepsIds(s.retries[r], e.SendOk?);
    }
    hide Ids, BackoffDelay, EnqueueEntry, Remaining, DueFrom;
  }

  lemma {:induction false} RunRemembers(s: State, events: seq<Event>, r: nat, ids: set<string>, dueAtLoad: nat)
    requires IsRun(s, events) && Remembers(s, r, ids, dueAtLoad)
    ensures Remembers(Run(s, events), r, ids, dueAtLoad)
    decreases events
  {
    hide Remembers, Step, Enabled;
    if events != [] {
      StepRemembers(s, events[0], r, ids, dueAtLoad);
      RunRemembers(Step(s, events[0]), events[1..], r, ids, dueAtLoad);
    }
  }

  // A retry's save replaces the whole outbox, so an entry that came in after its load is lost then,
  // whatever else happened meanwhile. Such an entry survives exactly when nothing was due at the
  // load, because then nothing is saved.
  lemma {:induction false} LateEntrySurvivesIffNothingWasDue(s: State, r: nat, now: int, events: seq<Event>, id: string)
    requires Enabled(s, Load(r, now)) && s.stored != [] && id !in Ids(s.stored)
    requires IsRun(Step(s, Load(r, now)), events)
    requires var t := Run(Step(s, Load(r, now)), events); Enabled(t, Finish(r)) && id in Ids(t.stored)
    ensures var t := Run(Step(s, Load(r, now)), events);
            id in Ids(Step(t, Finish(r)).stored) <==> forall e <- s.stored :: e.nextRetryAt > now
  {
    var due := DueFrom(s.stored, now, 0);
    RunRemembers(Step(s, Load(r, now)), events, r, Ids(s.stored), |due|);
    var t := Run(Step(s, Load(r, now)), events);
    assert t.retries[r].changed <==> due != [];
    assert due != [] <==> exists e <- s.stored :: e.nextRetryAt <= now by {
      if due != [] {
        assert due[0] in due && s.stored[due[0]] in s.stored;
      }
    }
    forall e | e in Remaining(t.retries[r].copy)
      ensures e.id != id
    {
      assert e in t.retries[r].copy && e.id in Ids(t.retries[r].copy);
    }
    hide DueFrom, Remaining, Run, IsRun;
  }

  lemma QueueOfTwo(a: Entry, b: Entry)
    requires a.id != b.id
    ensures EnqueueEntry([], a, MAX_OUTBOX) == [a] && EnqueueEntry([a], b, MAX_OUTBOX) == [a, b]
  {
    assert [a][1..] == [] && IndexOf([], b.id) == 0 && IndexOf([a], b.id) == 1;
  }

  lemma IdsOfTwo(a: Entry, b: Entry)
    ensures Ids([a]) == {a.id} && Ids([a, b]) == {a.id, b.id}
  {
    assert a in [a] && a in [a, b] && b in [a, b];
  }

  lemma {:induction false} DueOfOne(a: Entry, now: int)
    requires a.nextRetryAt <= now
    ensures DueFrom([a], now, 0) == [0]
  {
    assert DueFrom([a], now, 1) == [];
  }

  lemma SendOfOne(a: Entry, now: int)
    ensures Mark(Sending([a], [0], now, false), true) == Sending([a.(attempts := SENT)], [], now, true)
    ensures Remaining([a.(attempts := SENT)]) == []
  {
    hide BackoffDelay;
    assert [a][0 := a.(attempts := SENT)] == [a.(attempts := SENT)] && [0][1..] == [];
    assert [a.(attempts := SENT)][1..] == [];
  }

  lemma EnqueueSendAndLoad(a: Entry, now: int) returns (s: State, t: State)
    requires a.attempts == 1 && a.nextRetryAt <= now
    ensures Enabled(INITIAL, Enqueue(a)) && Step(INITIAL, Enqueue(a)) == s
    ensures Enabled(s, TimerFires) && Step(s, TimerFires) == t
    ensures Enabled(t, Load(0, now))
    ensures Step(t, Load(0, now)) == State([a], false, [Sending([a], [0], now, false)], {a.id})
  {
    QueueOfTwo(a, Entry(a.id + "'", 1, 0));
    IdsOfTwo(a, a);
    DueOfOne(a, now);
    hide EnqueueEntry, Ids, DueFrom;
    s := State([a], true, [], {a.id});
    t := State([a], false, [Waiting], {a.id});
  }

  lemma EnqueueSendAndFinish(a: Entry, b: Entry, now: int) returns (s: State, t: State)
    requires b.attempts == 1 && a.id != b.id
    ensures var before := State([a], false, [Sending([a], [0], now, false)], {a.id});
            && Enabled(before, Enqueue(b)) && Step(before, Enqueue(b)) == s
            && Enabled(s, SendOk(0)) && Step(s, SendOk(0)) == t
            && Enabled(t, Finish(0)) && Step(t, Finish(0)).stored == [] && Step(t, Finish(0)).live == {b.id}
  {
    QueueOfTwo(a, b);
    IdsOfTwo(a, b);
    SendOfOne(a, now);
    hide EnqueueEntry, Ids, Remaining, Mark;
    s := State([a, b], true, [Sending([a], [0], now, false)], {a.id, b.id});
    t := s.(retries := [Sending([a.(attempts := SENT)], [], now, true)], live := {b.id});
  }

  // A run that loses an entry: b comes in while the retry is sending a.
  lemma LateEntryIsLost(a: Entry, b: Entry, now: int)
    requires a.attempts == 1 && b.attempts == 1 && a.id != b.id && a.nextRetryAt <= now
    ensures var events := [Enqueue(a), TimerFires, Load(0, now), Enqueue(b), SendOk(0), Finish(0)];
            IsRun(INITIAL, events) && b.id in Run(INITIAL, events).live && Run(INITIAL, events).stored == []
  {
    hide *;
    var s, t := EnqueueSendAndLoad(a, now);
    var u, v := EnqueueSendAndFinish(a, b, now);
    var events := [Enqueue(a), TimerFires, Load(0, now), Enqueue(b), SendOk(0), Finish(0)];
    RunOne(v, events, 5);
    RunOne(u, events, 4);
    RunOne(Step(t, Load(0, now)), events, 3);
    RunOne(t, events, 2);
    RunOne(s, events, 1);
    RunOne(INITIAL, events, 0);
    assert events[0..] == events;
  }

  lemma {:induction false} RunOne(s: State, events: seq<Event>, k: nat)
    requires k < |events| && Enabled(s, events[k])
    ensures IsRun(s, events[k..]) <==> IsRun(Step(s, events[k]), events[k + 1..])
    ensures IsRun(s, events[k..]) ==> Run(s, events[k..]) == Run(Step(s, events[k]), events[k + 1..])
    ensures k + 1 == |events| ==> IsRun(s, events[k..]) && Run(s, events[k..]) == Step(s, events[k])
  {
    assert events[k..][1..] == events[k + 1..];
    hide Step, Enabled;
  }

  // Without settings, a retry ends without arming the timer: a nonempty outbox is stranded exactly
  // when no timer is armed and no other retry is under way.
  lemma UnconfiguredStrandsIff(s: State, r: nat)
    requires Enabled(s, Unconfigured(r))
    ensures !SomeoneCares(Step(s, Unconfigured(r))) <==>
            s.stored != [] && !s.timer && forall q :: 0 <= q < |s.retries| && q != r ==> s.retries[q].Over?
  {
    var t := Step(s, Unconfigured(r));
    assert forall q :: 0 <= q < |s.retries| && q != r ==> t.retries[q] == s.retries[q];
  }

  // And it stays so: nothing can happen to a stranded outbox but a new failed send or another
  // activation, and either ends it.
  lemma StrandedUntilCalled(s: State, e: Event)
    requires !SomeoneCares(s) && Enabled(s, e)
    ensures (e.Enqueue? || e.CallRetry?) && SomeoneCares(Step(s, e))
  {
    if e.CallRetry? {
      assert Step(s, e).retries[|s.retries|].Waiting?;
    }
  }

  // As after a single failed send.
  lemma UnconfiguredStrands(entry: Entry)
    requires entry.attempts == 1
    ensures var s := Step(Step(Step(INITIAL, Enqueue(entry)), TimerFires), Unconfigured(0));
            s.stored == [entry] && !SomeoneCares(s)
  {
  }

  // --- Queue mechanics ---

  // The new entry is always kept, entries are dropped from the front only, and an id stays unique.
  lemma EnqueueEntryIsRight(entries: seq<Entry>, entry: Entry, max: nat)
    requires 0 < max && |entries| <= max
    requires forall k, l :: 0 <= k < l < |entries| ==> entries[k].id != entries[l].id
    ensures var next := EnqueueEntry(entries, entry, max);
            && |next| <= max && entry in next
            && (forall k, l :: 0 <= k < l < |next| ==> next[k].id != next[l].id)
            && (forall e <- entries :: e.id != entry.id ==> e in next || (|entries| == max && e == entries[0]))
  {
    var k := IndexOf(entries, entry.id);
    var next := EnqueueEntry(entries, entry, max);
    if k < |entries| {
      assert next[k] == entry;
    } else {
      assert next[|next| - 1] == entry;
    }
    forall e | e in entries && e.id != entry.id
      ensures e in next || (|entries| == max && e == entries[0])
    {
      var l :| 0 <= l < |entries| && entries[l] == e;
      if k == |entries| == max {
        assert l > 0 ==> next[l - 1] == e;
      } else {
        assert next[l] == e;
      }
    }
  }

  // An entry whose id is stored already takes the place of the first such entry; a new one comes
  // last. Only the newest entries stay, as many as fit.
  lemma EnqueuePlaces(x: seq<Entry>, y: seq<Entry>, entry: Entry, max: nat)
    requires forall k :: 0 <= k < |x| ==> x[k].id != entry.id
    requires y != [] ==> y[0].id == entry.id
    ensures var (next, all) := (EnqueueEntry(x + y, entry, max), x + [entry] + if y == [] then [] else y[1..]);
            next == if |all| <= max then all else all[|all| - max..]
  {
    IndexIs(x, y, entry.id);
    if y != [] {
      assert (x + y)[|x| := entry] == x + [entry] + y[1..];
    }
    hide IndexOf;
  }

  lemma {:induction false} IndexIs(x: seq<Entry>, y: seq<Entry>, id: string)
    requires (forall k :: 0 <= k < |x| ==> x[k].id != id) && (y != [] ==> y[0].id == id)
    ensures IndexOf(x + y, id) == |x|
  {
    if x == [] {
      assert x + y == y;
    } else {
      IndexIs(x[1..], y, id);
      assert (x + y)[1..] == x[1..] + y;
    }
  }

  lemma RemainingOfNone()
    ensures Remaining([]) == []
  {
  }

  lemma {:induction false} RemainingCons(entry: Entry, s: seq<Entry>)
    ensures Remaining([entry] + s) == (if entry.attempts == -1 then [] else [entry]) + Remaining(s)
  {
    assert ([entry] + s)[0] == entry && ([entry] + s)[1..] == s;
  }

  // The entries that remain keep their order and their number.
  lemma {:induction false} RemainingKeepsOrder(x: seq<Entry>, entry: Entry, y: seq<Entry>)
    ensures Remaining(x + [entry] + y) == Remaining(x) + (if entry.attempts == -1 then [] else [entry]) + Remaining(y)
  {
    hide Remaining;
    if x == [] {
      assert x + [entry] + y == [entry] + y;
      RemainingCons(entry, y);
      RemainingOfNone();
    } else {
      assert x == [x[0]] + x[1..] && x + [entry] + y == [x[0]] + (x[1..] + [entry] + y);
      RemainingCons(x[0], x[1..] + [entry] + y);
      RemainingCons(x[0], x[1..]);
      RemainingKeepsOrder(x[1..], entry, y);
    }
  }

  // The wait doubles from 30 seconds up to the ceiling of ten minutes, which it keeps.
  lemma {:induction false} BackoffDoublesToCeiling(attempts: int)
    requires attempts >= 1
    ensures BackoffDelay(1) == 30000 <= BackoffDelay(attempts) <= 600000
    ensures BackoffDelay(attempts + 1) == if 2 * BackoffDelay(attempts) < 600000 then 2 * BackoffDelay(attempts) else 600000
  {
    Pow2IsPositive(attempts - 1);
  }

  lemma {:induction false} Pow2IsPositive(n: nat)
    ensures Pow2(n) >= 1
  {
    if n > 0 {
      Pow2IsPositive(n - 1);
    }
  }
}
