// Agent sessions of the insights view: one pass over the time-ordered records, with two maps from
// a key to the latest session, that should partition the records by key and cut every class where
// it pauses for more than twenty minutes.
module AgentSessions {
  import opened StableSort

  const AGENT_SESSION_GAP_MS := 1200000
  const SHOWN_SESSIONS := 12

  datatype Text = Null | Text(s: string)

  datatype AgentContext = AgentContext(sessionId: Text, runId: Text, conversationId: Text, sessionSignature: string)

  datatype Context = NoContext | Context(agent: AgentContext)

  // A record with its time; an unparsable time counts as 0.
  datatype Entry = Entry(uuid: nat, epoch: int, context: Context)

  // One accumulated session.
  datatype Session = Session(signature: string, startedAtMs: int, endedAtMs: int, records: seq<Entry>)

  predicate Truthy(t: Text) {
    t.Text? && t.s != ""
  }

  function GetNativeSessionKey(c: AgentContext): Text {
    if Truthy(c.sessionId) then c.sessionId
    else if Truthy(c.runId) then c.runId
    else if Truthy(c.conversationId) then c.conversationId
    else Null
  }

  // The first id that is there and not empty: the session's, the run's, the conversation's.
  lemma NativeKeyIsTheFirstId(c: AgentContext)
    ensures c.sessionId.Text? && c.sessionId.s != "" ==> GetNativeSessionKey(c) == c.sessionId
    ensures c.sessionId.Null? || c.sessionId.s == "" ==>
              && (c.runId.Text? && c.runId.s != "" ==> GetNativeSessionKey(c) == c.runId)
              && (c.runId.Null? || c.runId.s == "" ==>
                    GetNativeSessionKey(c) ==
                    if c.conversationId.Text? && c.conversationId.s != "" then c.conversationId else Null)
  {
  }

  // --- The loop, on values ---

  datatype State = State(sessions: seq<Session>, byNative: map<string, nat>, bySignature: map<string, nat>)

  const INITIAL := State([], map[], map[])

  datatype Lookup = None | At(index: nat)

  function Get(m: map<string, nat>, key: string): Lookup {
    if key in m then At(m[key]) else None
  }

  function SignatureOf(c: AgentContext): string {
    var native := GetNativeSessionKey(c);
    if native.Text? then native.s else c.sessionSignature
  }

  function Existing(st: State, c: AgentContext): Lookup {
    var native := GetNativeSessionKey(c);
    var found := if native.Text? then Get(st.byNative, native.s) else None;
    if found.At? then found else Get(st.bySignature, SignatureOf(c))
  }

  predicate StartsNew(st: State, e: Entry)
    requires e.context.Context?
  {
    var x := Existing(st, e.context.agent);
    x.None? || x.index >= |st.sessions| || e.epoch - st.sessions[x.index].endedAtMs > AGENT_SESSION_GAP_MS
  }

  function Step(st: State, e: Entry): State
    requires e.context.Context?
  {
    var native := GetNativeSessionKey(e.context.agent);
    var signature := SignatureOf(e.context.agent);
    if StartsNew(st, e) then
      var k := |st.sessions|;
      State(st.sessions + [Session(signature, e.epoch, e.epoch, [e])],
            if native.Text? then st.byNative[native.s := k] else st.byNative,
            st.bySignature[signature := k])
    else
      var k := Existing(st, e.context.agent).index;
      var s := st.sessions[k];
      st.(sessions := st.sessions[k := s.(records := s.records + [e], endedAtMs := e.epoch)],
          byNative := if native.Text? then st.byNative[native.s := k] else st.byNative)
  }

  // The session that an entry opens or joins is the one that its native id leads to from then on.
  lemma NativeIdLeadsToItsSession(st: State, e: Entry, native: string)
    requires e.context.Context? && GetNativeSessionKey(e.context.agent) == Text(native)
    ensures var t := Step(st, e);
            && native in t.byNative && t.byNative[native] < |t.sessions|
            && var rs := t.sessions[t.byNative[native]].records; rs != [] && rs[|rs| - 1] == e
  {
    hide Truthy;
  }

  ghost predicate AllContext(es: seq<Entry>) {
    forall e <- es :: e.context.Context?
  }

  function Fold(es: seq<Entry>): State
    requires AllContext(es)
  {
    if es == [] then INITIAL else Step(Fold(es[..|es| - 1]), es[|es| - 1])
  }

  // --- The specification: classes by key, cut at the gaps ---

  datatype Key = NativeKey(s: string) | SignatureKey(s: string)

  function KeyOf(e: Entry): Key
    requires e.context.Context?
  {
    var native := GetNativeSessionKey(e.context.agent);
    if native.Text? then NativeKey(native.s) else SignatureKey(e.context.agent.sessionSignature)
  }

  function Class(k: Key, es: seq<Entry>): seq<Entry>
    requires AllContext(es)
  {
    if es == [] then []
    else
      var last := es[|es| - 1];
      Class(k, es[..|es| - 1]) + if KeyOf(last) == k then [last] else []
  }

  datatype Group = Group(records: seq<Entry>)

  // The next record of a class joins the last group, or opens one after a longer gap.
  function Push(groups: seq<Group>, e: Entry): seq<Group> {
    var n := |groups|;
    if n == 0 || groups[n - 1].records == [] || e.epoch - End(groups[n - 1]) > AGENT_SESSION_GAP_MS
    then groups + [Group([e])]
    else groups[n - 1 := Group(groups[n - 1].records + [e])]
  }

  function End(g: Group): int
    requires g.records != []
  {
    g.records[|g.records| - 1].epoch
  }

  function Cut(es: seq<Entry>): seq<Group> {
    if es == [] then [] else Push(Cut(es[..|es| - 1]), es[|es| - 1])
  }

  function Flatten(groups: seq<Group>): seq<Entry> {
    if groups == [] then [] else Flatten(groups[..|groups| - 1]) + groups[|groups| - 1].records
  }

  // Cut does what its name says: it loses nothing, no group pauses too long, and between two
  // groups there is a long pause.
  ghost predicate Dense(g: Group) {
    g.records != [] &&
    forall i :: 0 < i < |g.records| ==> g.records[i].epoch - g.records[i - 1].epoch <= 20 * 60 * 1000
  }

  ghost predicate Apart(g: Group, h: Group) {
    g.records != [] && h.records != [] && h.records[0].epoch - End(g) > 20 * 60 * 1000
  }

  ghost predicate CutsAtGaps(groups: seq<Group>) {
    && (forall i :: 0 <= i < |groups| ==> Dense(groups[i]))
    && (forall i, j :: 0 <= i && j == i + 1 < |groups| ==> Apart(groups[i], groups[j]))
  }

  lemma {:induction false} PushIsRight(groups: seq<Group>, e: Entry)
    requires CutsAtGaps(groups)
    ensures CutsAtGaps(Push(groups, e)) && Flatten(Push(groups, e)) == Flatten(groups) + [e]
  {
    var n, d := |groups|, Push(groups, e);
    if n > 0 && e.epoch - End(groups[n - 1]) <= AGENT_SESSION_GAP_MS {
      assert d[..n - 1] == groups[..n - 1];
      assert Dense(groups[n - 1]);
      assert Flatten(groups[..n - 1]) + (groups[n - 1].records + [e]) == Flatten(groups) + [e];
      forall i, j | 0 <= i && j == i + 1 < n
        ensures Apart(d[i], d[j])
      {
        assert Apart(groups[i], groups[j]);
      }
    } else {
      assert d[..n] == groups;
    }
  }

  lemma {:induction false} CutUnfolds(es: seq<Entry>)
    requires es != []
    ensures Cut(es) == Push(Cut(es[..|es| - 1]), es[|es| - 1])
  {
  }

  lemma CutOfNothing()
    ensures CutsAtGaps(Cut([])) && Flatten(Cut([])) == []
  {
  }

  lemma {:induction false} CutIsRight(es: seq<Entry>)
    ensures CutsAtGaps(Cut(es)) && Flatten(Cut(es)) == es
  {
    hide *;
    if es == [] {
      CutOfNothing();
    } else {
      var front, e := es[..|es| - 1], es[|es| - 1];
      CutUnfolds(es);
      CutIsRight(front);
      PushIsRight(Cut(front), e);
      assert es == front + [e];
    }
  }

  // --- What the loop keeps ---

  ghost predicate Proper(s: Session) {
    && s.records != [] && (forall e <- s.records :: e.context.Context?)
    && s.endedAtMs == s.records[|s.records| - 1].epoch
  }

  ghost predicate AllProper(ss: seq<Session>) {
    forall i :: 0 <= i < |ss| ==> Proper(ss[i])
  }

  // --- Selecting the values under one key ---

  datatype Tagged<K, T> = Tagged(key: K, value: T)

  function Select<K(==), T>(k: K, ts: seq<Tagged<K, T>>): seq<T> {
    if ts == [] then []
    else
      var last := ts[|ts| - 1];
      Select(k, ts[..|ts| - 1]) + if last.key == k then [last.value] else []
  }

  ghost predicate IsLatest<K, T>(k: K, ts: seq<Tagged<K, T>>, x: nat) {
    x < |ts| && ts[x].key == k && forall i :: x < i < |ts| ==> ts[i].key != k
  }

  ghost predicate Absent<K, T>(k: K, ts: seq<Tagged<K, T>>) {
    forall i :: 0 <= i < |ts| ==> ts[i].key != k
  }

  lemma {:induction false} SelectPush<K, T>(k: K, ts: seq<Tagged<K, T>>, t: Tagged<K, T>)
    ensures Select(k, ts + [t]) == Select(k, ts) + if t.key == k then [t.value] else []
  {
    assert (ts + [t])[..|ts|] == ts;
  }

  lemma {:induction false} SelectAbsent<K, T>(k: K, ts: seq<Tagged<K, T>>)
    ensures Select(k, ts) == [] <==> Absent(k, ts)
  {
    if ts != [] {
      SelectAbsent(k, ts[..|ts| - 1]);
    }
  }

  lemma {:induction false} SelectLatest<K, T>(k: K, ts: seq<Tagged<K, T>>, x: nat)
    requires IsLatest(k, ts, x)
    ensures Select(k, ts) != [] && Select(k, ts)[|Select(k, ts)| - 1] == ts[x].value
  {
    if x < |ts| - 1 {
      SelectLatest(k, ts[..|ts| - 1], x);
    }
  }

  // Replacing the latest value of a key replaces the last one selected, and none of another key.
  lemma {:induction false} SelectUpdate<K, T>(k: K, ts: seq<Tagged<K, T>>, x: nat, v: T, q: K)
    requires IsLatest(k, ts, x)
    ensures var (g, u) := (Select(q, ts), ts[x := Tagged(k, v)]);
            Select(q, u) == if q == k && g != [] then g[|g| - 1 := v] else g
  {
    var n, u := |ts| - 1, ts[x := Tagged(k, v)];
    if x < n {
      SelectUpdate(k, ts[..n], x, v, q);
      assert u[..n] == ts[..n][x := Tagged(k, v)];
    } else {
      assert u[..n] == ts[..n];
    }
  }

  // --- Sessions under their keys ---

  function SessionKey(s: Session): Key
    requires s.records != [] && s.records[0].context.Context?
  {
    KeyOf(s.records[0])
  }

  // A session under the key of its first record.
  ghost function Tag(s: Session): Tagged<Key, Group>
    requires Proper(s)
  {
    assert s.records[0] in s.records;
    Tagged(SessionKey(s), Group(s.records))
  }

  ghost function Tags(ss: seq<Session>): seq<Tagged<Key, Group>>
    requires AllProper(ss)
  {
    seq(|ss|, i requires 0 <= i < |ss| => Tag(ss[i]))
  }

  // The sessions whose first record has key k, in order of creation.
  ghost function SessionsOf(k: Key, ss: seq<Session>): seq<Group>
    requires AllProper(ss)
  {
    Select(k, Tags(ss))
  }

  // The last entry whose key has this text, of either kind.
  datatype Last = Nobody | Somebody(e: Entry)

  ghost function LastOf(es: seq<Entry>, s: string): Last
    requires AllContext(es)
  {
    if es == [] then Nobody
    else if KeyOf(es[|es| - 1]).s == s then Somebody(es[|es| - 1])
    else LastOf(es[..|es| - 1], s)
  }

  ghost predicate HasNative(es: seq<Entry>, s: string)
    requires AllContext(es)
  {
    exists i :: 0 <= i < |es| && KeyOf(es[i]) == NativeKey(s)
  }

  // e has the same text as the last such entry but the other kind of key, comes within the gap,
  // and no session is known under its native key: the loop will confuse the two.
  ghost predicate Clashes(es: seq<Entry>, e: Entry)
    requires AllContext(es) && e.context.Context?
  {
    var last := LastOf(es, KeyOf(e).s);
    && last.Somebody? && last.e.context.Context? && KeyOf(last.e) != KeyOf(e)
    && e.epoch - last.e.epoch <= AGENT_SESSION_GAP_MS
    && (KeyOf(e).SignatureKey? || !HasNative(es, KeyOf(e).s))
  }

  ghost predicate Clean(es: seq<Entry>)
    requires AllContext(es)
  {
    es == [] || (Clean(es[..|es| - 1]) && !Clashes(es[..|es| - 1], es[|es| - 1]))
  }

  ghost predicate TimeOrdered(es: seq<Entry>) {
    forall i, j :: 0 <= i < j < |es| ==> es[i].epoch <= es[j].epoch
  }

  // For every key, its sessions are its class cut at the gaps.
  ghost predicate Refines(es: seq<Entry>, ss: seq<Session>)
    requires AllContext(es) && AllProper(ss)
  {
    forall k: Key :: SessionsOf(k, ss) == Cut(Class(k, es))
  }

  // --- What the loop keeps while nothing clashes ---

  // The native map holds the latest session of each native key seen.
  ghost predicate NativeAt(es: seq<Entry>, st: State, s: string)
    requires AllContext(es) && AllProper(st.sessions)
  {
    && (s in st.byNative <==> HasNative(es, s))
    && (if s in st.byNative then IsLatest(NativeKey(s), Tags(st.sessions), st.byNative[s])
        else Absent(NativeKey(s), Tags(st.sessions)))
  }

  // The signature map holds the session of the last entry with that text.
  ghost predicate SignatureAt(es: seq<Entry>, st: State, s: string)
    requires AllContext(es) && AllProper(st.sessions)
  {
    var last := LastOf(es, s);
    && (s in st.bySignature <==> last.Somebody?)
    && (s in st.bySignature ==>
          && last.e.context.Context? && KeyOf(last.e).s == s
          && IsLatest(KeyOf(last.e), Tags(st.sessions), st.bySignature[s])
          && st.sessions[st.bySignature[s]].endedAtMs == last.e.epoch)
  }

  // Behind a signature entry, the native session of the same text is out of reach.
  ghost predicate IdleAt(es: seq<Entry>, st: State, s: string)
    requires AllContext(es)
  {
    var last := LastOf(es, s);
    s in st.byNative ==>
      last.Somebody? && last.e.context.Context? && st.byNative[s] < |st.sessions| &&
      (KeyOf(last.e).SignatureKey? ==>
         last.e.epoch - st.sessions[st.byNative[s]].endedAtMs > AGENT_SESSION_GAP_MS)
  }

  ghost predicate EndsAreRight(es: seq<Entry>, ss: seq<Session>)
    requires AllContext(es) && AllProper(ss)
  {
    forall i :: 0 <= i < |ss| ==>
      var last := LastOf(es, Tag(ss[i]).key.s);
      last.Somebody? && ss[i].endedAtMs <= last.e.epoch
  }

  ghost predicate Inv(es: seq<Entry>, st: State)
    requires AllContext(es)
  {
    && AllProper(st.sessions) && Refines(es, st.sessions)
    && (forall s: string :: NativeAt(es, st, s) && SignatureAt(es, st, s) && IdleAt(es, st, s))
    && EndsAreRight(es, st.sessions)
  }

  lemma {:induction false} LastOfIsMember(es: seq<Entry>, s: string)
    requires AllContext(es)
    ensures var last := LastOf(es, s);
            last.Somebody? ==> last.e in es && last.e.context.Context? && KeyOf(last.e).s == s
  {
    if es != [] && KeyOf(es[|es| - 1]).s != s {
      LastOfIsMember(es[..|es| - 1], s);
    }
  }

  lemma {:induction false} LastOfPush(es: seq<Entry>, e: Entry, s: string)
    requires AllContext(es) && e.context.Context?
    ensures AllContext(es + [e])
    ensures LastOf(es + [e], s) == if KeyOf(e).s == s then Somebody(e) else LastOf(es, s)
    ensures HasNative(es + [e], s) <==> HasNative(es, s) || KeyOf(e) == NativeKey(s)
  {
    assert (es + [e])[..|es|] == es;
    assert KeyOf((es + [e])[|es|]) == KeyOf(e);
    if i :| 0 <= i < |es| && KeyOf(es[i]) == NativeKey(s) {
      assert KeyOf((es + [e])[i]) == NativeKey(s);
    }
  }

  // The spec's decision for the next entry of class k.
  ghost predicate SpecStartsNew(groups: seq<Group>, e: Entry) {
    groups == [] || groups[|groups| - 1].records == [] || e.epoch - End(groups[|groups| - 1]) > AGENT_SESSION_GAP_MS
  }

  lemma SpecUsesLatest(ss: seq<Session>, k: Key, x: nat, e: Entry)
    requires AllProper(ss) && IsLatest(k, Tags(ss), x)
    ensures x < |ss| && Proper(ss[x]) && Tag(ss[x]).key == k
    ensures SpecStartsNew(SessionsOf(k, ss), e) <==> e.epoch - ss[x].endedAtMs > AGENT_SESSION_GAP_MS
  {
    SelectLatest(k, Tags(ss), x);
  }

  lemma NoSessionMeansNew(ss: seq<Session>, k: Key, e: Entry)
    requires AllProper(ss) && Absent(k, Tags(ss))
    ensures SpecStartsNew(SessionsOf(k, ss), e)
  {
    SelectAbsent(k, Tags(ss));
  }

  // A class whose sessions all ended too long ago opens a new one.
  lemma EndedLongAgoMeansNew(ss: seq<Session>, k: Key, e: Entry)
    requires AllProper(ss)
    requires forall i :: 0 <= i < |ss| && Tag(ss[i]).key == k ==> e.epoch - ss[i].endedAtMs > AGENT_SESSION_GAP_MS
    ensures SpecStartsNew(SessionsOf(k, ss), e)
  {
    var x := FindLatest(k, Tags(ss), |ss|);
    if x < |ss| {
      SpecUsesLatest(ss, k, x, e);
    } else {
      NoSessionMeansNew(ss, k, e);
    }
  }

  lemma {:induction false} FindLatest<K, T>(k: K, ts: seq<Tagged<K, T>>, n: nat) returns (x: nat)
    requires n <= |ts| && forall i :: n <= i < |ts| ==> ts[i].key != k
    ensures x <= |ts| && if x < |ts| then IsLatest(k, ts, x) else Absent(k, ts)
    decreases n
  {
    if n == 0 {
      x := |ts|;
    } else if ts[n - 1].key == k {
      x := n - 1;
    } else {
      x := FindLatest(k, ts, n - 1);
    }
  }

  // The maps give the session that the specification means, and otherwise one too old to matter.
  lemma LookupIsRight(es: seq<Entry>, st: State, e: Entry)
    requires AllContext(es) && Inv(es, st) && e.context.Context? && !Clashes(es, e)
    ensures StartsNew(st, e) <==> SpecStartsNew(SessionsOf(KeyOf(e), st.sessions), e)
    ensures !StartsNew(st, e) ==> IsLatest(KeyOf(e), Tags(st.sessions), Existing(st, e.context.agent).index)
  {
    var k, ss := KeyOf(e), st.sessions;
    var s := k.s;
    assert SignatureOf(e.context.agent) == s;
    assert NativeAt(es, st, s) && SignatureAt(es, st, s);
    hide Refines, Select, Tags;
    if k.NativeKey? && s in st.byNative {
      SpecUsesLatest(ss, k, st.byNative[s], e);
    } else if s in st.bySignature {
      var f, x := LastOf(es, s).e, st.bySignature[s];
      LastOfIsMember(es, s);
      SpecUsesLatest(ss, KeyOf(f), x, e);
      if KeyOf(f) != k {
        EndedLongAgoMeansNew(ss, k, e);
      }
    } else {
      EndedLongAgoMeansNew(ss, k, e);
    }
  }

  // --- One step of the loop ---

  lemma TagsPush(ss: seq<Session>, s: Session)
    requires AllProper(ss) && Proper(s)
    ensures AllProper(ss + [s]) && Tags(ss + [s]) == Tags(ss) + [Tag(s)] && |Tags(ss)| == |ss|
  {
  }

  lemma TagsUpdate(ss: seq<Session>, x: nat, s: Session)
    requires AllProper(ss) && Proper(s) && x < |ss| && s.records[0] == ss[x].records[0]
    ensures AllProper(ss[x := s])
    ensures Tags(ss[x := s]) == Tags(ss)[x := Tagged(Tag(ss[x]).key, Group(s.records))]
  {
  }

  function Opened(e: Entry): Session
    requires e.context.Context?
  {
    Session(SignatureOf(e.context.agent), e.epoch, e.epoch, [e])
  }

  function Extended(s: Session, e: Entry): Session {
    s.(records := s.records + [e], endedAtMs := e.epoch)
  }

  lemma {:induction false} ClassPush(k: Key, es: seq<Entry>, e: Entry)
    requires AllContext(es) && e.context.Context?
    ensures AllContext(es + [e])
    ensures Cut(Class(k, es + [e])) == if KeyOf(e) == k then Push(Cut(Class(k, es)), e) else Cut(Class(k, es))
  {
    assert (es + [e])[..|es|] == es;
    if KeyOf(e) == k {
      var c := Class(k, es);
      assert (c + [e])[..|c|] == c;
    } else {
      assert Class(k, es) + [] == Class(k, es);
    }
  }

  lemma OpeningRefines(es: seq<Entry>, ss: seq<Session>, e: Entry)
    requires AllContext(es) && e.context.Context? && AllProper(ss) && Refines(es, ss)
    requires SpecStartsNew(SessionsOf(KeyOf(e), ss), e)
    ensures AllContext(es + [e]) && AllProper(ss + [Opened(e)]) && Refines(es + [e], ss + [Opened(e)])
  {
    TagsPush(ss, Opened(e));
    forall q: Key
      ensures SessionsOf(q, ss + [Opened(e)]) == Cut(Class(q, es + [e]))
    {
      assert SessionsOf(q, ss) == Cut(Class(q, es));
      ClassPush(q, es, e);
      SelectPush(q, Tags(ss), Tag(Opened(e)));
      hide Select, Cut, Class;
    }
  }

  lemma ExtendingRefines(es: seq<Entry>, ss: seq<Session>, e: Entry, x: nat)
    requires AllContext(es) && e.context.Context? && AllProper(ss) && Refines(es, ss)
    requires !SpecStartsNew(SessionsOf(KeyOf(e), ss), e) && IsLatest(KeyOf(e), Tags(ss), x)
    ensures AllContext(es + [e]) && x < |ss|
    ensures AllProper(ss[x := Extended(ss[x], e)]) && Refines(es + [e], ss[x := Extended(ss[x], e)])
  {
    TagsUpdate(ss, x, Extended(ss[x], e));
    forall q: Key
      ensures SessionsOf(q, ss[x := Extended(ss[x], e)]) == Cut(Class(q, es + [e]))
    {
      ExtendingRefinesAt(es, ss, e, x, q);
    }
  }

  lemma {:induction false} ExtendingRefinesAt(es: seq<Entry>, ss: seq<Session>, e: Entry, x: nat, q: Key)
    requires AllContext(es) && e.context.Context? && AllProper(ss) && Refines(es, ss)
    requires !SpecStartsNew(SessionsOf(KeyOf(e), ss), e) && IsLatest(KeyOf(e), Tags(ss), x)
    ensures AllContext(es + [e]) && x < |ss| && AllProper(ss[x := Extended(ss[x], e)])
    ensures SessionsOf(q, ss[x := Extended(ss[x], e)]) == Cut(Class(q, es + [e]))
  {
    hide Select, Cut, Class, Truthy, GetNativeSessionKey;
    var k, t := KeyOf(e), Extended(ss[x], e);
    TagsUpdate(ss, x, t);
    SelectLatest(k, Tags(ss), x);
    assert SessionsOf(q, ss) == Cut(Class(q, es));
    ClassPush(q, es, e);
    SelectUpdate(k, Tags(ss), x, Group(t.records), q);
  }

  lemma OpeningKeepsInv(es: seq<Entry>, st: State, e: Entry)
    requires AllContext(es) && Inv(es, st) && e.context.Context? && !Clashes(es, e) && StartsNew(st, e)
    requires forall f <- es :: f.epoch <= e.epoch
    ensures AllContext(es + [e]) && Inv(es + [e], Step(st, e))
  {
    LookupIsRight(es, st, e);
    OpeningRefines(es, st.sessions, e);
    EndsAfterOpening(es, st, e);
    hide Refines, NativeAt, SignatureAt, IdleAt, EndsAreRight;
    forall s: string
      ensures NativeAt(es + [e], Step(st, e), s) && SignatureAt(es + [e], Step(st, e), s)
      ensures IdleAt(es + [e], Step(st, e), s)
    {
      NativeAfterOpening(es, st, e, s);
      SignatureAfterOpening(es, st, e, s);
      IdleAfterOpening(es, st, e, s);
    }
  }

  lemma StepOpens(st: State, e: Entry)
    requires e.context.Context? && StartsNew(st, e)
    ensures Proper(Opened(e)) && Tag(Opened(e)).key == KeyOf(e)
    ensures var (t, k, n) := (Step(st, e), KeyOf(e), |st.sessions|);
            && t.sessions == st.sessions + [Opened(e)] && t.bySignature == st.bySignature[k.s := n]
            && t.byNative == if k.NativeKey? then st.byNative[k.s := n] else st.byNative
  {
    hide StartsNew, Truthy;
  }

  lemma NativeAfterOpening(es: seq<Entry>, st: State, e: Entry, s: string)
    requires AllContext(es) && AllProper(st.sessions) && e.context.Context? && StartsNew(st, e)
    requires NativeAt(es, st, s)
    ensures AllContext(es + [e]) && AllProper(Step(st, e).sessions) && NativeAt(es + [e], Step(st, e), s)
  {
    hide Step, StartsNew, KeyOf, Tags, Tag, LastOf, HasNative;
    TagsPush(st.sessions, Opened(e));
    StepOpens(st, e);
    LastOfPush(es, e, s);
  }

  lemma SignatureAfterOpening(es: seq<Entry>, st: State, e: Entry, s: string)
    requires AllContext(es) && AllProper(st.sessions) && e.context.Context? && StartsNew(st, e)
    requires SignatureAt(es, st, s)
    ensures AllContext(es + [e]) && AllProper(Step(st, e).sessions) && SignatureAt(es + [e], Step(st, e), s)
  {
    hide Step, StartsNew, KeyOf, Tags, Tag, LastOf, HasNative;
    TagsPush(st.sessions, Opened(e));
    StepOpens(st, e);
    LastOfPush(es, e, s);
  }

  lemma IdleAfterOpening(es: seq<Entry>, st: State, e: Entry, s: string)
    requires AllContext(es) && Inv(es, st) && e.context.Context? && !Clashes(es, e) && StartsNew(st, e)
    requires forall f <- es :: f.epoch <= e.epoch
    ensures AllContext(es + [e]) && IdleAt(es + [e], Step(st, e), s)
  {
    LastOfPush(es, e, s);
    LastOfIsMember(es, s);
    assert NativeAt(es, st, s) && IdleAt(es, st, s);
    if s in st.byNative {
      NativeEndsEarlier(es, st, s);
    }
    hide Inv, NativeAt, Tags, LastOf, HasNative, Existing, Truthy;
  }

  // A native session has ended by the last entry with its text.
  lemma {:induction false} NativeEndsEarlier(es: seq<Entry>, st: State, s: string)
    requires AllContext(es) && Inv(es, st) && s in st.byNative
    ensures HasNative(es, s)
    ensures st.byNative[s] < |st.sessions| && LastOf(es, s).Somebody?
    ensures st.sessions[st.byNative[s]].endedAtMs <= LastOf(es, s).e.epoch
    ensures Tag(st.sessions[st.byNative[s]]).key == NativeKey(s)
  {
    assert NativeAt(es, st, s);
    var x := st.byNative[s];
    assert Tag(st.sessions[x]).key == NativeKey(s);
  }

  lemma EndsAfterOpening(es: seq<Entry>, st: State, e: Entry)
    requires AllContext(es) && Inv(es, st) && e.context.Context? && StartsNew(st, e)
    requires forall f <- es :: f.epoch <= e.epoch
    ensures AllContext(es + [e]) && AllProper(Step(st, e).sessions) && EndsAreRight(es + [e], Step(st, e).sessions)
  {
    var ss, t := st.sessions, Step(st, e).sessions;
    TagsPush(ss, Opened(e));
    hide NativeAt, SignatureAt, IdleAt, Refines;
    forall i | 0 <= i < |t|
      ensures var last := LastOf(es + [e], Tag(t[i]).key.s);
              last.Somebody? && t[i].endedAtMs <= last.e.epoch
    {
      LastOfPush(es, e, Tag(t[i]).key.s);
      if i < |ss| {
        assert t[i] == ss[i];
        LastOfIsMember(es, Tag(ss[i]).key.s);
      }
    }
  }

  lemma ExtendingKeepsInv(es: seq<Entry>, st: State, e: Entry)
    requires AllContext(es) && Inv(es, st) && e.context.Context? && !Clashes(es, e) && !StartsNew(st, e)
    requires forall f <- es :: f.epoch <= e.epoch
    ensures AllContext(es + [e]) && Inv(es + [e], Step(st, e))
  {
    var x := Existing(st, e.context.agent).index;
    LookupIsRight(es, st, e);
    ExtendingRefines(es, st.sessions, e, x);
    EndsAfterExtending(es, st, e);
    SignatureMapIsCurrent(es, st, e);
    hide Refines, NativeAt, SignatureAt, IdleAt, EndsAreRight, StartsNew, Existing;
    forall s: string
      ensures NativeAt(es + [e], Step(st, e), s) && SignatureAt(es + [e], Step(st, e), s)
      ensures IdleAt(es + [e], Step(st, e), s)
    {
      MapsAfterExtending(es, st, e, s);
      IdleAfterExtending(es, st, e, s);
    }
  }

  // Extending a session changes no key.
  lemma KeysStay(ss: seq<Session>, x: nat, s: Session, q: Key)
    requires AllProper(ss) && Proper(s) && x < |ss| && s.records[0] == ss[x].records[0]
    ensures AllProper(ss[x := s])
    ensures forall y: nat :: IsLatest(q, Tags(ss[x := s]), y) <==> IsLatest(q, Tags(ss), y)
    ensures Absent(q, Tags(ss[x := s])) <==> Absent(q, Tags(ss))
  {
    TagsUpdate(ss, x, s);
    var a, b := Tags(ss), Tags(ss[x := s]);
    assert forall i :: 0 <= i < |a| ==> b[i].key == a[i].key;
  }

  // When a session is extended, the signature map already points to it.
  lemma SignatureMapIsCurrent(es: seq<Entry>, st: State, e: Entry)
    requires AllContext(es) && Inv(es, st) && e.context.Context? && !Clashes(es, e) && !StartsNew(st, e)
    requires forall f <- es :: f.epoch <= e.epoch
    ensures KeyOf(e).s in st.bySignature && st.bySignature[KeyOf(e).s] == Existing(st, e.context.agent).index
  {
    var k := KeyOf(e);
    LookupIsRight(es, st, e);
    LastOfIsMember(es, k.s);
    assert SignatureAt(es, st, k.s) && IdleAt(es, st, k.s);
    hide Inv, Tags, LastOf, HasNative, Truthy;
    if k.NativeKey? && k.s in st.byNative {
      var f := LastOf(es, k.s).e;
      assert KeyOf(f) == k;
    }
  }

  lemma MapsAfterExtending(es: seq<Entry>, st: State, e: Entry, s: string)
    requires AllContext(es) && Inv(es, st) && e.context.Context? && !StartsNew(st, e)
    requires var x := Existing(st, e.context.agent).index;
             && IsLatest(KeyOf(e), Tags(st.sessions), x)
             && KeyOf(e).s in st.bySignature && st.bySignature[KeyOf(e).s] == x
    ensures AllContext(es + [e]) && AllProper(Step(st, e).sessions)
    ensures NativeAt(es + [e], Step(st, e), s) && SignatureAt(es + [e], Step(st, e), s)
  {
    var x := Existing(st, e.context.agent).index;
    var t := Extended(st.sessions[x], e);
    LastOfPush(es, e, s);
    LastOfIsMember(es, s);
    KeysStay(st.sessions, x, t, NativeKey(s));
    KeysStay(st.sessions, x, t, KeyOf(e));
    assert NativeAt(es, st, s) && SignatureAt(es, st, s);
    if s in st.bySignature {
      KeysStay(st.sessions, x, t, KeyOf(LastOf(es, s).e));
    }
    hide Inv, Tags, LastOf, HasNative, Truthy, Existing, StartsNew;
  }

  lemma IdleAfterExtending(es: seq<Entry>, st: State, e: Entry, s: string)
    requires AllContext(es) && Inv(es, st) && e.context.Context? && !StartsNew(st, e)
    requires var x := Existing(st, e.context.agent).index;
             && IsLatest(KeyOf(e), Tags(st.sessions), x)
             && KeyOf(e).s in st.bySignature && st.bySignature[KeyOf(e).s] == x
    requires forall f <- es :: f.epoch <= e.epoch
    ensures AllContext(es + [e]) && IdleAt(es + [e], Step(st, e), s)
  {
    var x := Existing(st, e.context.agent).index;
    assert Tag(st.sessions[x]).key == KeyOf(e);
    LastOfPush(es, e, s);
    LastOfIsMember(es, s);
    assert IdleAt(es, st, s) && SignatureAt(es, st, s);
    if s in st.byNative {
      NativeEndsEarlier(es, st, s);
    }
    hide Inv, Tags, LastOf, HasNative, Truthy, Existing, StartsNew;
  }

  lemma EndsAfterExtending(es: seq<Entry>, st: State, e: Entry)
    requires AllContext(es) && Inv(es, st) && e.context.Context? && !Clashes(es, e) && !StartsNew(st, e)
    requires forall f <- es :: f.epoch <= e.epoch
    ensures AllContext(es + [e]) && AllProper(Step(st, e).sessions) && EndsAreRight(es + [e], Step(st, e).sessions)
  {
    var ss, t := st.sessions, Step(st, e).sessions;
    var x := Existing(st, e.context.agent).index;
    LookupIsRight(es, st, e);
    TagsUpdate(ss, x, Extended(ss[x], e));
    assert Tag(ss[x]).key == KeyOf(e);
    hide NativeAt, SignatureAt, IdleAt, Refines;
    forall i | 0 <= i < |t|
      ensures var last := LastOf(es + [e], Tag(t[i]).key.s);
              last.Somebody? && t[i].endedAtMs <= last.e.epoch
    {
      assert Tag(t[i]).key == Tag(ss[i]).key;
      LastOfPush(es, e, Tag(t[i]).key.s);
      LastOfIsMember(es, Tag(ss[i]).key.s);
    }
  }

  lemma StepKeepsInv(es: seq<Entry>, st: State, e: Entry)
    requires AllContext(es) && Inv(es, st) && e.context.Context? && !Clashes(es, e)
    requires forall f <- es :: f.epoch <= e.epoch
    ensures AllContext(es + [e]) && Inv(es + [e], Step(st, e))
  {
    if StartsNew(st, e) {
      OpeningKeepsInv(es, st, e);
    } else {
      ExtendingKeepsInv(es, st, e);
    }
  }

  // --- The loop refines the specification exactly when nothing clashes ---

  lemma OrderedFront(es: seq<Entry>)
    requires TimeOrdered(es) && AllContext(es) && es != []
    ensures TimeOrdered(es[..|es| - 1]) && AllContext(es[..|es| - 1])
    ensures es[|es| - 1].context.Context? && es == es[..|es| - 1] + [es[|es| - 1]]
    ensures forall f <- es[..|es| - 1] :: f.epoch <= es[|es| - 1].epoch
  {
    assert es[|es| - 1] in es;
  }

  lemma InitialInv()
    ensures Inv([], INITIAL)
  {
    forall s: string
      ensures NativeAt([], INITIAL, s) && SignatureAt([], INITIAL, s) && IdleAt([], INITIAL, s)
    {
    }
    forall k: Key
      ensures SessionsOf(k, []) == Cut(Class(k, []))
    {
    }
  }

  lemma {:induction false} CleanKeepsInv(es: seq<Entry>)
    requires AllContext(es) && TimeOrdered(es) && Clean(es)
    ensures Inv(es, Fold(es))
  {
    if es == [] {
      InitialInv();
    } else {
      OrderedFront(es);
      CleanKeepsInv(es[..|es| - 1]);
      hide Inv;
      StepKeepsInv(es[..|es| - 1], Fold(es[..|es| - 1]), es[|es| - 1]);
    }
  }

  lemma StepIsProper(st: State, e: Entry)
    requires AllProper(st.sessions) && e.context.Context?
    ensures AllProper(Step(st, e).sessions)
  {
  }

  lemma {:induction false} FoldIsProper(es: seq<Entry>)
    requires AllContext(es)
    ensures AllProper(Fold(es).sessions)
  {
    if es != [] {
      assert es[|es| - 1] in es;
      FoldIsProper(es[..|es| - 1]);
      StepIsProper(Fold(es[..|es| - 1]), es[|es| - 1]);
    }
  }

  // Some session holds records of two keys.
  ghost predicate Mixed(ss: seq<Session>) {
    exists i, j :: 0 <= i < |ss| && 0 < j < |ss[i].records| && MixedAt(ss[i], j)
  }

  ghost predicate MixedAt(s: Session, j: nat) {
    && 0 < j < |s.records| && s.records[0].context.Context? && s.records[j].context.Context?
    && KeyOf(s.records[j]) != KeyOf(s.records[0])
  }

  lemma ClashMixes(es: seq<Entry>, st: State, e: Entry)
    requires AllContext(es) && Inv(es, st) && e.context.Context? && Clashes(es, e)
    ensures Mixed(Step(st, e).sessions)
  {
    var s := KeyOf(e).s;
    LastOfIsMember(es, s);
    assert NativeAt(es, st, s) && SignatureAt(es, st, s);
    var x := st.bySignature[s];
    assert Tag(st.sessions[x]).key == KeyOf(LastOf(es, s).e);
    assert Existing(st, e.context.agent) == At(x);
    hide Inv, LastOf, Tags, HasNative;
    assert MixedAt(Step(st, e).sessions[x], |st.sessions[x].records|);
  }

  lemma MixedStays(st: State, e: Entry)
    requires AllProper(st.sessions) && e.context.Context? && Mixed(st.sessions)
    ensures Mixed(Step(st, e).sessions)
  {
    var i, j :| 0 <= i < |st.sessions| && 0 < j < |st.sessions[i].records| && MixedAt(st.sessions[i], j);
    hide Existing, StartsNew, KeyOf;
    assert MixedAt(Step(st, e).sessions[i], j);
  }

  lemma {:induction false} SelectContains<K, T>(k: K, ts: seq<Tagged<K, T>>, i: nat)
    requires i < |ts| && ts[i].key == k
    ensures ts[i].value in Select(k, ts)
  {
    if i < |ts| - 1 {
      SelectContains(k, ts[..|ts| - 1], i);
    }
  }

  lemma {:induction false} FlattenContains(groups: seq<Group>, g: Group, r: Entry)
    requires g in groups && r in g.records
    ensures r in Flatten(groups)
  {
    var n := |groups| - 1;
    if g != groups[n] {
      assert groups == groups[..n] + [groups[n]];
      FlattenContains(groups[..n], g, r);
    }
  }

  lemma {:induction false} ClassHasKey(k: Key, es: seq<Entry>)
    requires AllContext(es)
    ensures forall r <- Class(k, es) :: r.context.Context? && KeyOf(r) == k
  {
    if es != [] {
      ClassHasKey(k, es[..|es| - 1]);
    }
  }

  lemma RefiningIsNotMixed(es: seq<Entry>, ss: seq<Session>)
    requires AllContext(es) && AllProper(ss) && Refines(es, ss)
    ensures !Mixed(ss)
  {
    forall i: nat, j: nat | i < |ss| && 0 < j < |ss[i].records|
      ensures !MixedAt(ss[i], j)
    {
      var k := Tag(ss[i]).key;
      var g := Group(ss[i].records);
      assert Tags(ss)[i] == Tagged(k, g);
      SelectContains(k, Tags(ss), i);
      assert SessionsOf(k, ss) == Cut(Class(k, es));
      FlattenContains(Cut(Class(k, es)), g, ss[i].records[j]);
      CutIsRight(Class(k, es));
      ClassHasKey(k, es);
      hide Cut, Class, Flatten, Select;
    }
  }

  lemma {:induction false} UncleanMixes(es: seq<Entry>)
    requires AllContext(es) && TimeOrdered(es) && !Clean(es)
    ensures Mixed(Fold(es).sessions)
  {
    OrderedFront(es);
    var front, e := es[..|es| - 1], es[|es| - 1];
    FoldIsProper(front);
    if Clean(front) {
      CleanKeepsInv(front);
      ClashMixes(front, Fold(front), e);
    } else {
      UncleanMixes(front);
      MixedStays(Fold(front), e);
    }
  }

  // The loop yields, for every key, its class cut precisely at the long gaps, if and only if no
  // signature entry and native entry of the same text come too close to be told apart.
  lemma {:induction false} SessionsRefineIffClean(es: seq<Entry>)
    requires AllContext(es) && TimeOrdered(es)
    ensures AllProper(Fold(es).sessions)
    ensures Refines(es, Fold(es).sessions) <==> Clean(es)
  {
    FoldIsProper(es);
    if Clean(es) {
      CleanKeepsInv(es);
    } else {
      UncleanMixes(es);
      if Refines(es, Fold(es).sessions) {
        RefiningIsNotMixed(es, Fold(es).sessions);
      }
    }
  }

  // In particular when no signature is the text of a native key.
  ghost predicate TextsApart(es: seq<Entry>)
    requires AllContext(es)
  {
    forall e, f :: e in es && f in es && KeyOf(e).NativeKey? && KeyOf(f).SignatureKey? ==> KeyOf(e).s != KeyOf(f).s
  }

  lemma {:induction false} TextsApartIsClean(es: seq<Entry>)
    requires AllContext(es) && TextsApart(es)
    ensures Clean(es)
  {
    if es != [] {
      var front, e := es[..|es| - 1], es[|es| - 1];
      TextsApartIsClean(front);
      assert e in es;
      LastOfIsMember(front, KeyOf(e).s);
    }
  }

  // A session id that reads like another tool's signature pulls that tool's records in.
  lemma SharedTextMerges()
    ensures var a := Entry(1, 0, Context(AgentContext(Text("x"), Null, Null, "y")));
            var b := Entry(2, 1, Context(AgentContext(Null, Null, Null, "x")));
            KeyOf(a) != KeyOf(b) && |Fold([a, b]).sessions| == 1 && Fold([a, b]).sessions[0].records == [a, b]
  {
    var a := Entry(1, 0, Context(AgentContext(Text("x"), Null, Null, "y")));
    var b := Entry(2, 1, Context(AgentContext(Null, Null, Null, "x")));
    assert [a, b][..1] == [a] && [a][..0] == [];
    assert Fold([a]) == Step(INITIAL, a);
    assert Fold([a, b]) == Step(Step(INITIAL, a), b);
  }

  // --- Every record is in exactly one session, whatever the texts ---

  ghost function TimesIn(e: Entry, ss: seq<Session>): nat {
    if ss == [] then 0 else TimesIn(e, ss[..|ss| - 1]) + multiset(ss[|ss| - 1].records)[e]
  }

  lemma {:induction false} TimesAfterUpdate(e: Entry, ss: seq<Session>, x: nat, s: Session)
    requires x < |ss|
    ensures TimesIn(e, ss[x := s]) + multiset(ss[x].records)[e] == TimesIn(e, ss) + multiset(s.records)[e]
  {
    var n := |ss| - 1;
    if x < n {
      TimesAfterUpdate(e, ss[..n], x, s);
      assert ss[x := s][..n] == ss[..n][x := s];
    } else {
      assert ss[x := s][..n] == ss[..n];
    }
  }

  lemma {:induction false} StepCounts(st: State, e: Entry, f: Entry)
    requires e.context.Context?
    ensures TimesIn(f, Step(st, e).sessions) == TimesIn(f, st.sessions) + if e == f then 1 else 0
  {
    if StartsNew(st, e) {
      assert (st.sessions + [Opened(e)])[..|st.sessions|] == st.sessions;
    } else {
      var x := Existing(st, e.context.agent).index;
      TimesAfterUpdate(f, st.sessions, x, Extended(st.sessions[x], e));
    }
  }

  lemma {:induction false} RecordsAreConserved(es: seq<Entry>, f: Entry)
    requires AllContext(es)
    ensures TimesIn(f, Fold(es).sessions) == multiset(es)[f]
  {
    if es != [] {
      var front, e := es[..|es| - 1], es[|es| - 1];
      assert e in es && es == front + [e];
      RecordsAreConserved(front, f);
      StepCounts(Fold(front), e, f);
    }
  }

  // --- The whole function: filter, sort, accumulate, show the latest ---

  predicate Earlier(left: Entry, right: Entry) { left.epoch <= right.epoch }

  predicate EndedLater(left: Session, right: Session) { left.endedAtMs >= right.endedAtMs }

  lemma OrdersArePreorders()
    ensures TotalPreorder(Earlier) && TotalPreorder(EndedLater)
  {
  }

  function WithContext(es: seq<Entry>): (r: seq<Entry>)
    ensures AllContext(r)
  {
    if es == [] then [] else (if es[0].context.Context? then [es[0]] else []) + WithContext(es[1..])
  }

  function InTimeOrder(entries: seq<Entry>): (r: seq<Entry>)
    ensures AllContext(r)
  {
    var kept := WithContext(entries);
    assert forall e :: e in multiset(Sort(Earlier, kept)) ==> e in kept;
    assert forall e <- Sort(Earlier, kept) :: e in multiset(Sort(Earlier, kept));
    Sort(Earlier, kept)
  }

  function FirstOf(ss: seq<Session>, n: nat): seq<Session> {
    if |ss| <= n then ss else ss[..n]
  }

  lemma {:induction false} WithContextCounts(entries: seq<Entry>, f: Entry)
    ensures multiset(WithContext(entries))[f] == if f.context.Context? then multiset(entries)[f] else 0
  {
    if entries != [] {
      assert entries == [entries[0]] + entries[1..];
      WithContextCounts(entries[1..], f);
    }
  }

  // For any records in any order: each one with a context is in exactly one session, as often as
  // it was given, and the sessions are the classes cut at the gaps exactly when nothing clashes.
  lemma {:induction false} SessionsOfAnyInput(entries: seq<Entry>, f: Entry)
    ensures var es := InTimeOrder(entries);
            && TimeOrdered(es) && AllProper(Fold(es).sessions)
            && TimesIn(f, Fold(es).sessions) == (if f.context.Context? then multiset(entries)[f] else 0)
            && (Refines(es, Fold(es).sessions) <==> Clean(es))
  {
    var es := InTimeOrder(entries);
    OrdersArePreorders();
    SortIsOrdered(Earlier, WithContext(entries));
    hide TotalPreorder, Refines, Clean, Fold, Sort;
    SessionsRefineIffClean(es);
    RecordsAreConserved(es, f);
    WithContextCounts(entries, f);
  }

  // The dashboard shows twelve sessions, or all if there are no more, and none that it leaves out
  // ended later than one that it shows.
  lemma {:induction false} ShownAreTheLatest(ss: seq<Session>)
    ensures var (all, shown) := (Sort(EndedLater, ss), FirstOf(Sort(EndedLater, ss), SHOWN_SESSIONS));
            |shown| == (if |ss| < 12 then |ss| else 12) && shown == all[..|shown|]
    ensures forall i, j :: 0 <= i < j < |ss| ==>
              Sort(EndedLater, ss)[i].endedAtMs >= Sort(EndedLater, ss)[j].endedAtMs
  {
    hide TotalPreorder, Sort;
    OrdersArePreorders();
    SortIsOrdered(EndedLater, ss);
    var all := Sort(EndedLater, ss);
    forall i, j | 0 <= i < j < |ss|
      ensures all[i].endedAtMs >= all[j].endedAtMs
    {
      assert EndedLater(all[i], all[j]);
    }
    hide EndedLater;
  }

  // The records keep their order before the sort, and after it where their times are equal.
  lemma {:induction false} ContextKeepsOrder(x: seq<Entry>, y: seq<Entry>)
    ensures WithContext(x + y) == WithContext(x) + WithContext(y)
  {
    hide AllContext;
    if x == [] {
      assert x + y == y;
    } else {
      assert (x + y)[0] == x[0] && (x + y)[1..] == x[1..] + y;
      ContextKeepsOrder(x[1..], y);
    }
  }

  lemma ContextOfOne(e: Entry)
    ensures WithContext([e]) == if e.context.Context? then [e] else []
  {
    assert [e][1..] == [];
  }

  lemma {:induction false} EqualTimesKeepOrder(entries: seq<Entry>, e: Entry)
    ensures Ties(Earlier, e, InTimeOrder(entries)) == Ties(Earlier, e, WithContext(entries))
  {
    OrdersArePreorders();
    SortIsStable(Earlier, e, WithContext(entries));
    hide TotalPreorder, Ties, Sort;
  }

  class SessionAccumulator {
    const signature: string
    const startedAtMs: int
    var endedAtMs: int
    var records: seq<Entry>

    function View(): Session
      reads this
    {
      Session(signature, startedAtMs, endedAtMs, records)
    }

    constructor (signature: string, first: Entry)
      ensures View() == Session(signature, first.epoch, first.epoch, [first])
    {
      this.signature := signature;
      startedAtMs := first.epoch;
      endedAtMs := first.epoch;
      records := [first];
    }

    method Extend(e: Entry)
      modifies this
      ensures View() == Extended(old(View()), e)
    {
      records := records + [e];
      endedAtMs := e.epoch;
    }
  }

  function Views(sessions: seq<SessionAccumulator>): seq<Session>
    reads sessions
  {
    seq(|sessions|, i requires 0 <= i < |sessions| reads sessions => sessions[i].View())
  }

  ghost predicate Distinct(sessions: seq<SessionAccumulator>) {
    forall i, j :: 0 <= i < j < |sessions| ==> sessions[i] != sessions[j]
  }

  ghost predicate Shows(sessions: seq<SessionAccumulator>, ss: seq<Session>)
    reads sessions
  {
    |sessions| == |ss| && forall i :: 0 <= i < |ss| ==> sessions[i].View() == ss[i]
  }

  // A map of accumulators mirrors a map of their positions.
  ghost predicate Mirrors(m: map<string, SessionAccumulator>, positions: map<string, nat>,
                          sessions: seq<SessionAccumulator>) {
    && m.Keys == positions.Keys
    && forall s <- positions :: positions[s] < |sessions| && m[s] == sessions[positions[s]]
  }

  lemma MirrorsUpdate(m: map<string, SessionAccumulator>, positions: map<string, nat>,
                      sessions: seq<SessionAccumulator>, s: string, k: nat)
    requires Mirrors(m, positions, sessions) && k < |sessions|
    ensures Mirrors(m[s := sessions[k]], positions[s := k], sessions)
  {
  }

  lemma MirrorsPush(m: map<string, SessionAccumulator>, positions: map<string, nat>,
                    sessions: seq<SessionAccumulator>, created: SessionAccumulator)
    requires Mirrors(m, positions, sessions)
    ensures Mirrors(m, positions, sessions + [created])
  {
  }

  lemma FoldNext(es: seq<Entry>, k: nat)
    requires AllContext(es) && k < |es|
    ensures AllContext(es[..k]) && AllContext(es[..k + 1]) && es[k].context.Context?
    ensures Fold(es[..k + 1]) == Step(Fold(es[..k]), es[k])
  {
    assert es[k] in es && es[..k + 1][..k] == es[..k];
  }

  lemma FoldStart(es: seq<Entry>)
    requires AllContext(es)
    ensures AllContext(es[..0]) && Fold(es[..0]) == INITIAL
  {
  }

  // The accumulators of the running loop: the list, and the latest one by either kind of key.
  class SessionAccumulators {
    var sessions: seq<SessionAccumulator>
    var latestByNativeId: map<string, SessionAccumulator>
    var latestBySignature: map<string, SessionAccumulator>

    constructor ()
      ensures Holds(INITIAL) && sessions == []
    {
      sessions, latestByNativeId, latestBySignature := [], map[], map[];
    }

    ghost predicate Holds(st: State)
      reads this, sessions
    {
      && Distinct(sessions) && Shows(sessions, st.sessions)
      && Mirrors(latestByNativeId, st.byNative, sessions)
      && Mirrors(latestBySignature, st.bySignature, sessions)
    }

    method List(ghost st: State) returns (views: seq<Session>)
      requires Holds(st)
      ensures views == st.sessions
    {
      hide Mirrors;
      views := Views(sessions);
    }

    // The session an entry would join.
    method Find(native: Text, signature: string, ghost st: State) returns (existing: SessionAccumulator?)
      requires Holds(st)
      ensures var found := if native.Text? then Get(st.byNative, native.s) else None;
              var x := if found.At? then found else Get(st.bySignature, signature);
              if x.At? then x.index < |sessions| && existing == sessions[x.index] else existing == null
    {
      existing := null;
      if native.Text? && native.s in latestByNativeId {
        existing := latestByNativeId[native.s];
      } else if signature in latestBySignature {
        existing := latestBySignature[signature];
      }
    }

    method Open(e: Entry, native: Text, signature: string, ghost st: State)
      requires e.context.Context? && Holds(st) && StartsNew(st, e)
      requires native == GetNativeSessionKey(e.context.agent) && signature == SignatureOf(e.context.agent)
      modifies this
      ensures Holds(Step(st, e)) && fresh(set s <- sessions | s !in old(sessions))
    {
      hide StartsNew, GetNativeSessionKey;
      var created := new SessionAccumulator(signature, e);
      MirrorsPush(latestByNativeId, st.byNative, sessions, created);
      MirrorsPush(latestBySignature, st.bySignature, sessions, created);
      sessions := sessions + [created];
      if native.Text? {
        MirrorsUpdate(latestByNativeId, st.byNative, sessions, native.s, |st.sessions|);
        latestByNativeId := latestByNativeId[native.s := created];
      }
      MirrorsUpdate(latestBySignature, st.bySignature, sessions, signature, |st.sessions|);
      latestBySignature := latestBySignature[signature := created];
      hide Mirrors;
    }

    method Join(existing: SessionAccumulator, e: Entry, native: Text, ghost st: State)
      requires e.context.Context? && Holds(st) && !StartsNew(st, e)
      requires native == GetNativeSessionKey(e.context.agent)
      requires existing == sessions[Existing(st, e.context.agent).index]
      modifies this, existing
      ensures Holds(Step(st, e)) && sessions == old(sessions)
    {
      hide GetNativeSessionKey, SignatureOf, Mirrors, Existing;
      existing.Extend(e);
      if native.Text? {
        MirrorsUpdate(latestByNativeId, st.byNative, sessions, native.s, Existing(st, e.context.agent).index);
        latestByNativeId := latestByNativeId[native.s := existing];
      }
    }

    // One turn of the loop.
    method Add(e: Entry, ghost st: State)
      requires e.context.Context? && Holds(st)
      modifies this, sessions
      ensures Holds(Step(st, e)) && fresh(set s <- sessions | s !in old(sessions))
    {
      var native := GetNativeSessionKey(e.context.agent);
      var signature := if native.Text? then native.s else e.context.agent.sessionSignature;
      var existing := Find(native, signature, st);
      hide GetNativeSessionKey, Mirrors, Step;
      if existing == null || e.epoch - existing.endedAtMs > AGENT_SESSION_GAP_MS {
        Open(e, native, signature, st);
      } else {
        Join(existing, e, native, st);
      }
    }
  }

  method AccumulateSessions(sortedEntries: seq<Entry>) returns (sessions: seq<Session>)
    requires AllContext(sortedEntries)
    ensures sessions == Fold(sortedEntries).sessions
  {
    hide AllContext, Fold, Step;
    var running := new SessionAccumulators();
    ghost var st := INITIAL;
    FoldStart(sortedEntries);
    hide running.Holds, Views;
    var k := 0;
    while k < |sortedEntries|
      invariant 0 <= k <= |sortedEntries| && AllContext(sortedEntries[..k]) && st == Fold(sortedEntries[..k])
      invariant fresh(running.sessions) && running.Holds(st)
    {
      FoldNext(sortedEntries, k);
      running.Add(sortedEntries[k], st);
      st := Step(st, sortedEntries[k]);
      k := k + 1;
    }
    assert sortedEntries[..k] == sortedEntries;
    sessions := running.List(st);
  }

  method BuildAgentSessions(entries: seq<Entry>) returns (shown: seq<Session>)
    ensures shown == FirstOf(Sort(EndedLater, Fold(InTimeOrder(entries)).sessions), SHOWN_SESSIONS)
  {
    var sessions := AccumulateSessions(InTimeOrder(entries));
    shown := FirstOf(Sort(EndedLater, sessions), SHOWN_SESSIONS);
  }


  // What a session carries besides its records: the signature of the first, and the times of the
  // first and the last.
  ghost predicate Labelled(s: Session) {
    && s.records != [] && s.records[0].context.Context?
    && s.signature == SignatureOf(s.records[0].context.agent)
    && s.startedAtMs == s.records[0].epoch && s.endedAtMs == s.records[|s.records| - 1].epoch
  }

  lemma {:induction false} SessionsAreLabelled(es: seq<Entry>)
    requires AllContext(es)
    ensures forall i :: 0 <= i < |Fold(es).sessions| ==> Labelled(Fold(es).sessions[i])
  {
    if es != [] {
      var front, e := es[..|es| - 1], es[|es| - 1];
      assert e in es;
      SessionsAreLabelled(front);
      StepKeepsLabels(Fold(front), e);
      hide Step, Labelled;
    }
  }

  lemma StepKeepsLabels(st: State, e: Entry)
    requires e.context.Context? && forall i :: 0 <= i < |st.sessions| ==> Labelled(st.sessions[i])
    ensures forall i :: 0 <= i < |Step(st, e).sessions| ==> Labelled(Step(st, e).sessions[i])
  {
    hide Existing, GetNativeSessionKey;
  }
}
