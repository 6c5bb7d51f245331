// The streaming body limit of the ASGI backend: a wrapper around receive and send that counts
// request bytes and answers 413 by itself once they exceed the limit. The application may await
// several receives and sends at once, so each call is cut at its awaits.
module BodyLimit {

  // An incoming message: a body part of so many bytes, or anything else (a disconnect, say).
  datatype Incoming = Request(bytes: nat) | NotRequest

  // What a receive returns to the application.
  datatype Received = Handed(bytes: nat) | PassedOn | Disconnect

  // What the server is given to send.
  datatype Outgoing = FromApp(message: string) | RejectionStart | RejectionBody

  // waiting counts receives that await the server; inRejection says that a receive has sent the
  // start of the rejection and awaits before its body.
  datatype State = State(
    seenBytes: nat,
    rejected: bool,
    rejectionSent: bool,
    waiting: nat,
    inRejection: bool,
    received: seq<Received>,
    sent: seq<Outgoing>)

  const INITIAL := State(0, false, false, 0, false, [], [])

  datatype Event =
    | CallReceive
    | Arrive(message: Incoming)   // the server answers one waiting receive
    | FinishRejection             // the start of the rejection is out
    | CallSend(text: string)

  predicate Enabled(s: State, e: Event) {
    match e
    case CallReceive => true
    case Arrive(_) => s.waiting > 0
    case FinishRejection => s.inRejection
    case CallSend(_) => true
  }

  function Step(s: State, e: Event, max: nat): State
    requires Enabled(s, e)
  {
    match e
    case CallReceive =>
      if s.rejected then s.(received := s.received + [Disconnect]) else s.(waiting := s.waiting + 1)
    case Arrive(NotRequest) =>
      s.(waiting := s.waiting - 1, received := s.received + [PassedOn])
    case Arrive(Request(bytes)) =>
      var t := s.(waiting := s.waiting - 1, seenBytes := s.seenBytes + bytes);
      if t.seenBytes <= max then t.(received := t.received + [Handed(bytes)])
      else if t.rejectionSent then t.(rejected := true, received := t.received + [Disconnect])
      else t.(rejected := true, rejectionSent := true, inRejection := true, sent := t.sent + [RejectionStart])
    case FinishRejection =>
      s.(inRejection := false, sent := s.sent + [RejectionBody], received := s.received + [Disconnect])
    case CallSend(message) =>
      if s.rejected then s else s.(sent := s.sent + [FromApp(message)])
  }

  // --- The closures over one request ---

  class StreamingBodyLimit {
    const maxBytes: nat
    var seenBytes: nat
    var rejected: bool
    var rejectionSent: bool
    var waiting: nat
    var inRejection: bool
    var received: seq<Received>
    var sent: seq<Outgoing>

    constructor (max: nat)
      ensures maxBytes == max && View() == INITIAL
    {
      maxBytes := max;
      seenBytes, rejected, rejectionSent, waiting, inRejection, received, sent := 0, false, false, 0, false, [], [];
    }

    function View(): State
      reads this
    {
      State(seenBytes, rejected, rejectionSent, waiting, inRejection, received, sent)
    }

    // receive_with_limit up to its await.
    method ReceiveWithLimit()
      modifies this
      ensures View() == Step(old(View()), CallReceive, maxBytes)
    {
      if rejected {
        received := received + [Disconnect];
        return;
      }
      waiting := waiting + 1;
    }

    // receive_with_limit behind its await, up to the first send of a rejection.
    method MessageArrives(message: Incoming)
      requires Enabled(View(), Arrive(message))
      modifies this
      ensures View() == Step(old(View()), Arrive(message), maxBytes)
    {
      waiting := waiting - 1;
      if message.NotRequest? {
        received := received + [PassedOn];
        return;
      }
      seenBytes := seenBytes + message.bytes;
      if seenBytes > maxBytes {
        rejected := true;
        var begun := SendRejection();
        if !begun {
          received := received + [Disconnect];
        }
        return;
      }
      received := received + [Handed(message.bytes)];
    }

    // send_rejection up to its first await.
    method SendRejection() returns (begun: bool)
      modifies this`rejectionSent, this`inRejection, this`sent
      ensures begun == !old(rejectionSent) && rejectionSent
      ensures inRejection == (begun || old(inRejection))
      ensures sent == if begun then old(sent) + [RejectionStart] else old(sent)
    {
      if rejectionSent {
        return false;
      }
      rejectionSent := true;
      inRejection := true;
      sent := sent + [RejectionStart];
      begun := true;
    }

    method RejectionContinues()
      requires Enabled(View(), FinishRejection)
      modifies this
      ensures View() == Step(old(View()), FinishRejection, maxBytes)
    {
      sent := sent + [RejectionBody];
      inRejection := false;
      received := received + [Disconnect];
    }

    method SendUnlessRejected(message: string)
      modifies this
      ensures View() == Step(old(View()), CallSend(message), maxBytes)
    {
      if rejected {
        return;
      }
      sent := sent + [FromApp(message)];
    }
  }

  // --- What every step keeps ---

  // The bytes that the application has been given.
  function HandedBytes(received: seq<Received>): nat {
    if received == [] then 0
    else
      var last := received[|received| - 1];
      HandedBytes(received[..|received| - 1]) + if last.Handed? then last.bytes else 0
  }

  ghost predicate AllFromApp(sent: seq<Outgoing>) {
    forall k :: 0 <= k < |sent| ==> sent[k].FromApp?
  }

  // The rejection as far as it has been sent.
  function RejectionPart(s: State): seq<Outgoing> {
    if !s.rejectionSent then [] else if s.inRejection then [RejectionStart] else [RejectionStart, RejectionBody]
  }

  ghost predicate CountIsRight(s: State, max: nat) {
    && (s.rejected <==> s.seenBytes > max)
    && (s.rejected <==> s.rejectionSent)
    && (s.inRejection ==> s.rejectionSent)
    && HandedBytes(s.received) <= max
    && (!s.rejected ==> HandedBytes(s.received) == s.seenBytes)
  }

  // What was sent is the application's messages and then the rejection.
  ghost predicate SentIsRight(s: State) {
    var n := |s.sent| - |RejectionPart(s)|;
    n >= 0 && s.sent[n..] == RejectionPart(s) && AllFromApp(s.sent[..n])
  }

  ghost predicate Inv(s: State, max: nat) {
    CountIsRight(s, max) && SentIsRight(s)
  }

  lemma {:induction false} PushReceived(received: seq<Received>, r: Received)
    ensures HandedBytes(received + [r]) == HandedBytes(received) + if r.Handed? then r.bytes else 0
  {
    assert (received + [r])[..|received|] == received;
  }

  lemma StepKeepsCount(s: State, e: Event, max: nat)
    requires CountIsRight(s, max) && Enabled(s, e)
    ensures CountIsRight(Step(s, e, max), max)
  {
    var t := Step(s, e, max);
    if t.received != s.received {
      PushReceived(s.received, t.received[|s.received|]);
    }
  }

  // The split of what was sent, with the split point given.
  lemma SentSplits(s: State, front: seq<Outgoing>)
    requires AllFromApp(front) && s.sent == front + RejectionPart(s)
    ensures SentIsRight(s)
  {
    hide RejectionPart, AllFromApp;
    var n := |s.sent| - |RejectionPart(s)|;
    assert s.sent[..n] == front && s.sent[n..] == RejectionPart(s);
  }

  lemma StepKeepsSent(s: State, e: Event, max: nat)
    requires CountIsRight(s, max) && SentIsRight(s) && Enabled(s, e)
    ensures SentIsRight(Step(s, e, max))
  {
    hide HandedBytes;
    var t := Step(s, e, max);
    var front := s.sent[..|s.sent| - |RejectionPart(s)|];
    assert s.sent == front + RejectionPart(s);
    if e.CallSend? && !s.rejected {
      assert t.sent == front + [FromApp(e.text)] + RejectionPart(t);
      SentSplits(t, front + [FromApp(e.text)]);
    } else {
      assert t.sent == front + RejectionPart(t);
      SentSplits(t, front);
    }
    hide *;
  }

  lemma StepKeepsInv(s: State, e: Event, max: nat)
    requires Inv(s, max) && Enabled(s, e)
    ensures Inv(Step(s, e, max), max)
  {
    StepKeepsCount(s, e, max);
    StepKeepsSent(s, e, max);
  }

  // Once the limit is crossed, nothing of the application reaches the client any more, no body
  // byte reaches the application, and every new receive is told that the client is gone.
  lemma RejectedStaysSilent(s: State, e: Event, max: nat)
    requires Inv(s, max) && Enabled(s, e) && s.rejected
    ensures var t := Step(s, e, max);
            && t.rejected
            && HandedBytes(t.received) == HandedBytes(s.received)
            && (t.sent == s.sent || t.sent == s.sent + [RejectionBody])
            && (e.CallReceive? ==> t.received == s.received + [Disconnect])
            && (e.Arrive? && e.message.Request? ==> t.received == s.received + [Disconnect])
  {
    var t := Step(s, e, max);
    if t.received != s.received {
      assert t.received[..|s.received|] == s.received;
    }
  }

  // --- Whole runs ---

  ghost predicate IsRun(s: State, events: seq<Event>, max: nat)
    decreases events
  {
    events == [] || (Enabled(s, events[0]) && IsRun(Step(s, events[0], max), events[1..], max))
  }

  ghost function Run(s: State, events: seq<Event>, max: nat): State
    requires IsRun(s, events, max)
    decreases events
  {
    if events == [] then s else Run(Step(s, events[0], max), events[1..], max)
  }

  lemma {:induction false} RunKeepsInv(s: State, events: seq<Event>, max: nat)
    requires Inv(s, max) && IsRun(s, events, max)
    ensures Inv(Run(s, events, max), max)
    decreases events
  {
    hide Step, Enabled, Inv;
    if events != [] {
      StepKeepsInv(s, events[0], max);
      RunKeepsInv(Step(s, events[0], max), events[1..], max);
    }
  }

  // In every interleaving: the application never gets more than the limit, and gets every byte
  // while the limit holds; the client gets the application's messages and then, exactly if the
  // limit was crossed, one rejection, start before body.
  lemma {:induction false} LimitHolds(events: seq<Event>, max: nat)
    requires IsRun(INITIAL, events, max)
    ensures var s := Run(INITIAL, events, max);
            && HandedBytes(s.received) <= max
            && (s.seenBytes <= max ==> HandedBytes(s.received) == s.seenBytes)
            && (s.rejected <==> s.seenBytes > max)
            && SentIsRight(s) && (RejectionPart(s) != [] <==> s.seenBytes > max)
  {
    hide Run, IsRun, Step, Enabled, SentIsRight;
    InitialInv(max);
    RunKeepsInv(INITIAL, events, max);
    hide HandedBytes;
  }

  lemma InitialInv(max: nat)
    ensures Inv(INITIAL, max)
  {
  }

  // The client sees the 413 as the first message exactly if the application had sent nothing
  // before the limit was crossed; otherwise a second response start follows the application's.
  lemma RejectionComesFirstIffNothingWasSent(s: State, e: Event, max: nat)
    requires Inv(s, max) && Enabled(s, e) && !s.rejected && Step(s, e, max).rejected
    ensures Step(s, e, max).sent[0] == RejectionStart <==> s.sent == []
  {
  }

  // A run in which the rejection starts a second response behind the application's own.
  lemma RejectionCanComeSecond(max: nat, message: string)
    ensures var events := [CallSend(message), CallReceive, Arrive(Request(max + 1))];
            && IsRun(INITIAL, events, max)
            && Run(INITIAL, events, max).sent == [FromApp(message), RejectionStart]
  {
    var events := [CallSend(message), CallReceive, Arrive(Request(max + 1))];
    var s := Step(INITIAL, events[0], max);
    var t := Step(s, events[1], max);
    assert events[1..] == [events[1], events[2]] && events[1..][1..] == [events[2]] && events[1..][1..][1..] == [];
    assert Run(t, [events[2]], max) == Step(t, events[2], max);
    assert Run(s, events[1..], max) == Run(t, [events[2]], max);
  }


  // --- Transparency below the limit ---

  // Bytes that an event brings in.
  function Bytes(e: Event): nat {
    if e.Arrive? && e.message.Request? then e.message.bytes else 0
  }

  function BytesOf(events: seq<Event>): nat {
    if events == [] then 0 else BytesOf(events[..|events| - 1]) + Bytes(events[|events| - 1])
  }

  // What the client is sent for an event, with `seen` bytes in before it: the application's message
  // while they do not exceed the limit, and the rejection when they come to do so.
  function SentNow(seen: nat, e: Event, max: nat): seq<Outgoing> {
    match e
    case CallSend(text) => if seen <= max then [FromApp(text)] else []
    case Arrive(_) => if seen <= max < seen + Bytes(e) then [RejectionStart] else []
    case FinishRejection => [RejectionBody]
    case CallReceive => []
  }

  function SentFor(events: seq<Event>, max: nat): seq<Outgoing> {
    if events == [] then []
    else
      var (before, e) := (events[..|events| - 1], events[|events| - 1]);
      SentFor(before, max) + SentNow(BytesOf(before), e, max)
  }

  // What the application receives: every message up to the limit, and disconnects beyond it.
  function ReceivedNow(seen: nat, e: Event, max: nat): seq<Received> {
    match e
    case CallSend(_) => []
    case CallReceive => if seen > max then [Disconnect] else []
    case Arrive(NotRequest) => [PassedOn]
    case Arrive(Request(bytes)) =>
      if seen + bytes <= max then [Handed(bytes)] else if seen > max then [Disconnect] else []
    case FinishRejection => [Disconnect]
  }

  function ReceivedFor(events: seq<Event>, max: nat): seq<Received> {
    if events == [] then []
    else
      var (before, e) := (events[..|events| - 1], events[|events| - 1]);
      ReceivedFor(before, max) + ReceivedNow(BytesOf(before), e, max)
  }

  // The texts that the application sends before the limit is crossed, all of them if it never is.
  function TextsBefore(events: seq<Event>, max: nat): seq<Outgoing> {
    if events == [] then []
    else
      var (before, e) := (events[..|events| - 1], events[|events| - 1]);
      TextsBefore(before, max) + if e.CallSend? && BytesOf(before) <= max then [FromApp(e.text)] else []
  }

  // s is what the events have led to.
  ghost predicate After(s: State, events: seq<Event>, max: nat) {
    && Inv(s, max) && s.seenBytes == BytesOf(events)
    && s.sent == SentFor(events, max) && s.received == ReceivedFor(events, max)
  }

  lemma StepAnswers(s: State, e: Event, max: nat)
    requires CountIsRight(s, max) && Enabled(s, e)
    ensures Step(s, e, max).sent == s.sent + SentNow(s.seenBytes, e, max)
    ensures Step(s, e, max).received == s.received + ReceivedNow(s.seenBytes, e, max)
    ensures Step(s, e, max).seenBytes == s.seenBytes + Bytes(e)
  {
    hide HandedBytes;
  }

  lemma {:induction false} Pushed(done: seq<Event>, e: Event, max: nat)
    ensures BytesOf(done + [e]) == BytesOf(done) + Bytes(e)
    ensures SentFor(done + [e], max) == SentFor(done, max) + SentNow(BytesOf(done), e, max)
    ensures ReceivedFor(done + [e], max) == ReceivedFor(done, max) + ReceivedNow(BytesOf(done), e, max)
    ensures TextsBefore(done + [e], max) ==
            TextsBefore(done, max) + if e.CallSend? && BytesOf(done) <= max then [FromApp(e.text)] else []
  {
    assert (done + [e])[..|done|] == done;
    hide Bytes, SentNow, ReceivedNow;
  }

  lemma StepAfter(s: State, done: seq<Event>, e: Event, max: nat)
    requires After(s, done, max) && Enabled(s, e)
    ensures After(Step(s, e, max), done + [e], max)
  {
    StepKeepsInv(s, e, max);
    StepAnswers(s, e, max);
    Pushed(done, e, max);
    hide Step, Enabled, SentIsRight, CountIsRight, BytesOf, Bytes, SentFor, ReceivedFor, SentNow, ReceivedNow;
  }

  lemma {:induction false} RunAfter(s: State, done: seq<Event>, events: seq<Event>, max: nat)
    requires After(s, done, max) && IsRun(s, events, max)
    ensures After(Run(s, events, max), done + events, max)
    decreases events
  {
    hide After, Step, Enabled;
    if events == [] {
      assert done + events == done;
    } else {
      StepAfter(s, done, events[0], max);
      RunAfter(Step(s, events[0], max), done + [events[0]], events[1..], max);
      assert done + [events[0]] + events[1..] == done + events;
    }
  }

  function OnlyApp(sent: seq<Outgoing>): seq<Outgoing> {
    if sent == [] then []
    else OnlyApp(sent[..|sent| - 1]) + if sent[|sent| - 1].FromApp? then [sent[|sent| - 1]] else []
  }

  lemma {:induction false} OnlyAppOfSent(events: seq<Event>, max: nat)
    ensures OnlyApp(SentFor(events, max)) == TextsBefore(events, max)
  {
    if events != [] {
      var before, e := events[..|events| - 1], events[|events| - 1];
      assert events == before + [e];
      OnlyAppOfSent(before, max);
      Pushed(before, e, max);
      hide BytesOf, OnlyApp, SentFor, TextsBefore;
      var now := SentNow(BytesOf(before), e, max);
      if now == [] {
        assert SentFor(before, max) + [] == SentFor(before, max);
      } else {
        assert now == [now[0]];
        OnlyAppPush(SentFor(before, max), now[0]);
      }
    }
  }

  lemma {:induction false} OnlyAppPush(sent: seq<Outgoing>, m: Outgoing)
    ensures OnlyApp(sent + [m]) == OnlyApp(sent) + if m.FromApp? then [m] else []
  {
    assert (sent + [m])[..|sent|] == sent;
  }

  // In every interleaving the wrapper is transparent up to the limit: the client is sent every
  // message of the application from before the crossing, in order and none from behind it; and what
  // either side gets, message by message, is settled by the bytes that have come in.
  lemma {:induction false} TransparentUpToTheLimit(events: seq<Event>, max: nat)
    requires IsRun(INITIAL, events, max)
    ensures var s := Run(INITIAL, events, max);
            && OnlyApp(s.sent) == TextsBefore(events, max)
            && s.sent == SentFor(events, max) && s.received == ReceivedFor(events, max)
            && s.seenBytes == BytesOf(events)
  {
    InitialInv(max);
    assert After(INITIAL, [], max);
    hide Run, IsRun, SentFor, ReceivedFor, Inv;
    RunAfter(INITIAL, [], events, max);
    OnlyAppOfSent(events, max);
    assert [] + events == events;
  }
}
