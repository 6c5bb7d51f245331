// The capture store of the base extension: a list of records, newest first, sealed into a hash
// chain as they are added, capped, reordered, removed and reviewed; and the chain's verifier.
module CaptureStore {

  datatype Option<+T> = None | Some(value: T)

  datatype Id = Id(text: string)

  datatype Hash = Hash(hex: string)

  const GENESIS := Hash(Repeat('0', 64))

  function Repeat(c: char, n: nat): string {
    seq(n, _ => c)
  }

  // The immutable facts that the chain covers.
  datatype Core = Core(
    id: Id, timestamp: string, filePath: string, language: string, insertedCode: string,
    linesAdded: int, startLine: Option<int>, endLine: Option<int>)

  datatype Source = Ai | Paste | UnknownSource

  datatype ReviewState = Unreviewed | Reviewed | NeedsChanges | Rejected | Accepted

  datatype Record = Record(
    core: Core,
    source: Source,
    confidence: real,
    reviewState: Option<ReviewState>,
    reviewNote: Option<string>,
    reviewedAt: Option<string>,
    eventHash: Option<Hash>,
    prevHash: Option<Hash>)

  // sha256 over the canonical core and the predecessor's hash.
  type HashFunction = (Core, Hash) -> Hash

  // --- The chain ---

  function HeadHash(records: seq<Record>): Hash {
    if records == [] || records[0].eventHash.None? then GENESIS else records[0].eventHash.value
  }

  function Seal(h: HashFunction, record: Record, prev: Hash): Record {
    record.(prevHash := Some(prev), eventHash := Some(h(record.core, prev)))
  }

  // slice(0, cap): a negative cap counts from the end.
  function Capped(records: seq<Record>, cap: int): seq<Record> {
    if |records| <= cap then records
    else if cap >= 0 then records[..cap]
    else records[..if |records| + cap < 0 then 0 else |records| + cap]
  }

  function Add(h: HashFunction, records: seq<Record>, record: Record, cap: int): seq<Record> {
    Capped([Seal(h, record, HeadHash(records))] + records, cap)
  }

  // A record whose stored hash is the hash of its own core and its own link.
  predicate Intact(h: HashFunction, r: Record) {
    r.eventHash.Some? && r.prevHash.Some? && r.eventHash.value == h(r.core, r.prevHash.value)
  }

  // Every record is intact and links to the one behind it.
  ghost predicate Chained(h: HashFunction, records: seq<Record>) {
    && (forall k :: 0 <= k < |records| ==> Intact(h, records[k]))
    && (forall k :: 0 <= k < |records| - 1 ==> records[k].prevHash == records[k + 1].eventHash)
  }

  // ... back to the first record ever.
  ghost predicate Complete(h: HashFunction, records: seq<Record>) {
    Chained(h, records) && (records != [] ==> records[|records| - 1].prevHash == Some(GENESIS))
  }

  lemma AddKeepsChain(h: HashFunction, records: seq<Record>, record: Record, cap: int)
    requires Chained(h, records)
    ensures Chained(h, Add(h, records, record, cap))
    ensures Complete(h, records) && |records| < cap ==> Complete(h, Add(h, records, record, cap))
  {
    var all := [Seal(h, record, HeadHash(records))] + records;
    assert records != [] ==> all[1] == records[0] && Intact(h, records[0]);
    forall k | 0 <= k < |all| - 1
      ensures all[k].prevHash == all[k + 1].eventHash
    {
      assert k > 0 ==> all[k] == records[k - 1] && all[k + 1] == records[k];
    }
  }

  // The new record is at the front, its hash is the new head, and behind it stand the newest of the
  // old records, as many as the cap allows.
  lemma AddKeepsTheNewest(h: HashFunction, records: seq<Record>, record: Record, cap: nat)
    ensures var after := Add(h, records, record, cap);
            && |after| == (if |records| < cap then |records| + 1 else cap)
            && (cap > 0 ==>
                  && after[0].core == record.core && HeadHash(after) == h(record.core, HeadHash(records))
                  && after[1..] == records[..|after| - 1])
  {
  }

  // A negative cap counts from the end: so many of the oldest records go.
  lemma NegativeCapDropsTheOldest(h: HashFunction, records: seq<Record>, record: Record, drop: int)
    requires drop > 0
    ensures var all := [Seal(h, record, HeadHash(records))] + records;
            Add(h, records, record, -drop) == if drop <= |all| then all[..|all| - drop] else []
  {
  }

  // What is assumed of SHA-256: no collision, and never sixty-four zeros.
  ghost predicate Injective(h: HashFunction) {
    forall c, p, d, q :: h(c, p) == h(d, q) ==> c == d && p == q
  }

  ghost predicate NeverGenesis(h: HashFunction) {
    forall c, p :: h(c, p) != GENESIS
  }

  // Two chains with the same head hash hold the same cores in the same order, as far as both reach.
  lemma {:induction false} HeadFixesWhatIsRetained(h: HashFunction, r: seq<Record>, q: seq<Record>, k: nat)
    requires Injective(h) && Chained(h, r) && Chained(h, q)
    requires r != [] && q != [] && HeadHash(r) == HeadHash(q)
    requires k < |r| && k < |q|
    ensures r[k].core == q[k].core && r[k].prevHash == q[k].prevHash && r[k].eventHash == q[k].eventHash
  {
    if k == 0 {
      assert Intact(h, r[0]) && Intact(h, q[0]);
    } else {
      HeadFixesWhatIsRetained(h, r, q, k - 1);
      assert r[k - 1].prevHash == r[k].eventHash && q[k - 1].prevHash == q[k].eventHash;
      assert Intact(h, r[k]) && Intact(h, q[k]);
    }
  }

  // Without a cap the head hash fixes the whole history.
  lemma HeadFixesHistory(h: HashFunction, r: seq<Record>, q: seq<Record>)
    requires Injective(h) && NeverGenesis(h) && Complete(h, r) && Complete(h, q)
    requires HeadHash(r) == HeadHash(q)
    ensures |r| == |q| && forall k :: 0 <= k < |r| ==> r[k].core == q[k].core
  {
    if r != [] {
      assert Intact(h, r[0]);
    }
    if q != [] {
      assert Intact(h, q[0]);
    }
    if r != [] && q != [] {
      if |r| < |q| {
        LongerIsDifferent(h, r, q);
      } else if |q| < |r| {
        LongerIsDifferent(h, q, r);
      }
      forall k | 0 <= k < |r|
        ensures r[k].core == q[k].core
      {
        HeadFixesWhatIsRetained(h, r, q, k);
      }
    }
  }

  lemma LongerIsDifferent(h: HashFunction, r: seq<Record>, q: seq<Record>)
    requires Injective(h) && NeverGenesis(h) && Complete(h, r) && Chained(h, q) && r != [] && |r| < |q|
    ensures HeadHash(r) != HeadHash(q)
  {
    var k := |r| - 1;
    assert Intact(h, q[k + 1]) && q[k].prevHash == q[k + 1].eventHash;
    if HeadHash(r) == HeadHash(q) {
      HeadFixesWhatIsRetained(h, r, q, k);
    }
  }

  // --- The verifier ---

  datatype Verification = Verification(verified: nat, tampered: seq<Id>, unsealed: seq<Id>, breaks: nat) {
    predicate Ok() {
      tampered == [] && unsealed == []
    }
  }

  function LinkOf(r: Record): Hash {
    if r.prevHash.Some? then r.prevHash.value else GENESIS
  }

  function EventHashes(records: seq<Record>): set<Hash> {
    set r <- records | r.eventHash.Some? :: r.eventHash.value
  }

  function Plus(v: Verification, w: Verification): Verification {
    Verification(v.verified + w.verified, v.tampered + w.tampered, v.unsealed + w.unsealed, v.breaks + w.breaks)
  }

  function Judge(h: HashFunction, r: Record, known: set<Hash>): Verification {
    if r.eventHash.None? then Verification(0, [], [r.core.id], 0)
    else
      var link := LinkOf(r);
      var matches := h(r.core, link) == r.eventHash.value;
      Verification(if matches then 1 else 0, if matches then [] else [r.core.id], [],
                   if link != GENESIS && link !in known then 1 else 0)
  }

  function Verify(h: HashFunction, records: seq<Record>, known: set<Hash>): Verification {
    if records == [] then Verification(0, [], [], 0)
    else Plus(Verify(h, records[..|records| - 1], known), Judge(h, records[|records| - 1], known))
  }

  lemma EventHashesPush(r: seq<Record>, x: Record)
    ensures EventHashes(r + [x]) == EventHashes(r) + if x.eventHash.Some? then {x.eventHash.value} else {}
  {
  }

  method CollectEventHashes(records: seq<Record>) returns (eventHashes: set<Hash>)
    ensures eventHashes == EventHashes(records)
  {
    assert EventHashes(records[..0]) == {};
    assert records[..|records|] == records;
    hide EventHashes;
    eventHashes := {};
    for k := 0 to |records|
      invariant eventHashes == EventHashes(records[..k])
    {
      assert records[..k + 1] == records[..k] + [records[k]];
      EventHashesPush(records[..k], records[k]);
      if records[k].eventHash.Some? {
        eventHashes := eventHashes + {records[k].eventHash.value};
      }
    }
  }

  // One turn of the second loop.
  method CheckRecord(h: HashFunction, r: Record, eventHashes: set<Hash>, before: Verification)
    returns (v: Verification)
    ensures v == Plus(before, Judge(h, r, eventHashes))
  {
    v := before;
    if r.eventHash.None? {
      v := v.(unsealed := v.unsealed + [r.core.id]);
      return;
    }
    var prev := if r.prevHash.Some? then r.prevHash.value else GENESIS;
    if h(r.core, prev) == r.eventHash.value {
      v := v.(verified := v.verified + 1);
    } else {
      v := v.(tampered := v.tampered + [r.core.id]);
    }
    if prev != GENESIS && prev !in eventHashes {
      v := v.(breaks := v.breaks + 1);
    }
  }

  method VerifyChain(h: HashFunction, records: seq<Record>) returns (v: Verification)
    ensures v == Verify(h, records, EventHashes(records))
  {
    var eventHashes := CollectEventHashes(records);
    assert Verify(h, records[..0], eventHashes) == Verification(0, [], [], 0);
    assert records[..|records|] == records;
    hide *;
    v := Verification(0, [], [], 0);
    for k := 0 to |records|
      invariant v == Verify(h, records[..k], eventHashes)
    {
      assert records[..k + 1] == records[..k] + [records[k]];
      VerifyPush(h, records[..k], records[k], eventHashes);
      v := CheckRecord(h, records[k], eventHashes, v);
    }
  }

  ghost predicate AllIntact(h: HashFunction, records: seq<Record>) {
    forall r <- records :: Intact(h, r)
  }

  // The check passes exactly when every record has a hash and it is the hash of its content.
  lemma {:induction false} VerifyFindsExactly(h: HashFunction, records: seq<Record>, known: set<Hash>)
    ensures Verify(h, records, known).Ok() <==>
            forall r <- records :: r.eventHash.Some? && h(r.core, LinkOf(r)) == r.eventHash.value
    ensures forall r <- records :: r.eventHash.Some? && h(r.core, LinkOf(r)) != r.eventHash.value ==>
              r.core.id in Verify(h, records, known).tampered
    ensures forall r <- records :: r.eventHash.None? ==> r.core.id in Verify(h, records, known).unsealed
  {
    if records != [] {
      var front, last := records[..|records| - 1], records[|records| - 1];
      VerifyFindsExactly(h, front, known);
      assert records == front + [last];
    }
  }

  // Changing the content of a stored record is noticed.
  lemma TamperingIsDetected(h: HashFunction, records: seq<Record>, k: nat, forged: Core)
    requires Injective(h) && k < |records| && Intact(h, records[k]) && forged != records[k].core
    ensures var after := records[k := records[k].(core := forged)];
            var v := Verify(h, after, EventHashes(after));
            !v.Ok() && forged.id in v.tampered
  {
    var after := records[k := records[k].(core := forged)];
    VerifyFindsExactly(h, after, EventHashes(after));
    assert after[k] in after;
  }

  // The record carries a hash, and it is that of its content and link.
  predicate Matches(h: HashFunction, r: Record) {
    r.eventHash.Some? && h(r.core, LinkOf(r)) == r.eventHash.value
  }

  lemma {:induction false} EveryMatches(h: HashFunction, records: seq<Record>, known: set<Hash>)
    ensures Verify(h, records, known).Ok() <==> forall r <- records :: Matches(h, r)
  {
    VerifyFindsExactly(h, records, known);
    hide Verify, LinkOf;
  }

  // Every record is counted once, as verified, tampered or unsealed.
  lemma {:induction false} CountsAddUp(h: HashFunction, records: seq<Record>, known: set<Hash>)
    ensures var v := Verify(h, records, known); v.verified + |v.tampered| + |v.unsealed| == |records| && v.breaks <= |records|
  {
    if records != [] {
      CountsAddUp(h, records[..|records| - 1], known);
    }
  }

  // Replacing a stored record by any other is noticed, and the record named, exactly if the new one
  // does not carry its own hash.
  lemma ForgeryIsDetectedIff(h: HashFunction, records: seq<Record>, k: nat, forged: Record)
    requires k < |records| && forall j :: 0 <= j < |records| && j != k ==> Matches(h, records[j])
    ensures var after := records[k := forged];
            var v := Verify(h, after, EventHashes(after));
            && (!v.Ok() <==> !Matches(h, forged))
            && (!Matches(h, forged) ==> forged.core.id in v.tampered + v.unsealed)
  {
    var after := records[k := forged];
    VerifyFindsExactly(h, after, EventHashes(after));
    assert after[k] == forged && after[k] in after;
    assert Matches(h, forged) || forged.core.id in Verify(h, after, EventHashes(after)).tampered + Verify(h, after, EventHashes(after)).unsealed;
    EveryMatches(h, after, EventHashes(after));
    hide *;
    forall r | r in after
      ensures r == forged || Matches(h, r)
    {
      var j :| 0 <= j < |after| && after[j] == r;
      assert j != k ==> r == records[j];
    }
  }

  lemma {:induction false} BreaksAreCounted(h: HashFunction, records: seq<Record>, known: set<Hash>)
    ensures Verify(h, records, known).breaks > 0 <==> exists r <- records :: IsBreak(r, known)
  {
    if records != [] {
      var front, last := records[..|records| - 1], records[|records| - 1];
      BreaksAreCounted(h, front, known);
      assert records == front + [last];
      if r :| r in front && IsBreak(r, known) {
        assert r in records;
      }
      assert last in records && (Judge(h, last, known).breaks > 0 <==> IsBreak(last, known));
      hide LinkOf, Judge;
    }
  }

  predicate IsBreak(r: Record, known: set<Hash>) {
    r.eventHash.Some? && LinkOf(r) != GENESIS && LinkOf(r) !in known
  }

  lemma SuffixIsComplete(h: HashFunction, records: seq<Record>, i: nat)
    requires Complete(h, records) && i <= |records|
    ensures Complete(h, records[i..])
  {
  }

  // No two records of a complete chain have the same hash.
  lemma HashesAreDistinct(h: HashFunction, records: seq<Record>, i: nat, j: nat)
    requires Injective(h) && NeverGenesis(h) && Complete(h, records)
    requires i < j < |records|
    ensures records[i].eventHash != records[j].eventHash
  {
    SuffixIsComplete(h, records, i);
    SuffixIsComplete(h, records, j);
    assert Intact(h, records[i]) && Intact(h, records[j]);
    if records[i].eventHash == records[j].eventHash {
      hide Complete, Chained, Intact, Injective, NeverGenesis;
      HeadFixesHistory(h, records[i..], records[j..]);
    }
  }

  // The new content with its own hash, behind the same record as before.
  function Rehashed(h: HashFunction, r: Record, forged: Core): Record {
    r.(core := forged, eventHash := Some(h(forged, LinkOf(r))))
  }

  lemma RehashedForgeryBreaks(h: HashFunction, records: seq<Record>, k: nat, forged: Core)
    requires Injective(h) && NeverGenesis(h) && Complete(h, records)
    requires 0 < k < |records| && forged != records[k].core
    ensures var after := records[k := Rehashed(h, records[k], forged)];
            IsBreak(after[k - 1], EventHashes(after))
  {
    var after := records[k := Rehashed(h, records[k], forged)];
    assert Intact(h, records[k - 1]) && Intact(h, records[k]);
    assert records[k - 1].prevHash == records[k].eventHash;
    var link := LinkOf(after[k - 1]);
    forall r | r in after && r.eventHash.Some?
      ensures r.eventHash.value != link
    {
      var j :| 0 <= j < |after| && after[j] == r;
      if j < k {
        HashesAreDistinct(h, records, j, k);
      } else if j > k {
        HashesAreDistinct(h, records, k, j);
      }
    }
    hide Complete, Chained, Intact;
  }

  lemma RehashedHeadDoesNotBreak(h: HashFunction, records: seq<Record>, forged: Core)
    requires Complete(h, records) && records != []
    ensures var after := records[0 := Rehashed(h, records[0], forged)];
            forall r <- after :: !IsBreak(r, EventHashes(after))
  {
    var after := records[0 := Rehashed(h, records[0], forged)];
    forall r | r in after
      ensures !IsBreak(r, EventHashes(after))
    {
      var j :| 0 <= j < |after| && after[j] == r;
      assert Intact(h, records[j]) && r.prevHash == records[j].prevHash;
      if j + 1 < |records| {
        assert Intact(h, records[j + 1]) && records[j].prevHash == records[j + 1].eventHash;
        assert after[j + 1] == records[j + 1] && after[j + 1] in after;
      }
    }
  }

  // A forgery that carries a hash of its own passes the check; it shows as a reported break exactly
  // if a later record links to the one that was replaced.
  lemma RehashedForgeryShowsIffNotNewest(h: HashFunction, records: seq<Record>, k: nat, forged: Core)
    requires Injective(h) && NeverGenesis(h) && Complete(h, records)
    requires k < |records| && forged != records[k].core
    ensures var after := records[k := Rehashed(h, records[k], forged)];
            var v := Verify(h, after, EventHashes(after));
            v.Ok() && (v.breaks > 0 <==> k > 0)
  {
    var after := records[k := Rehashed(h, records[k], forged)];
    forall j | 0 <= j < |records|
      ensures Matches(h, records[j])
    {
      assert Intact(h, records[j]);
    }
    ForgeryIsDetectedIff(h, records, k, Rehashed(h, records[k], forged));
    BreaksAreCounted(h, after, EventHashes(after));
    if k > 0 {
      RehashedForgeryBreaks(h, records, k, forged);
      hide *;
      assert after[k - 1] in after;
    } else {
      RehashedHeadDoesNotBreak(h, records, forged);
      hide *;
    }
  }

  // A chain has at most one break: where the cap cut it off.
  lemma {:induction false} ChainBreaksAtTheEndOnly(h: HashFunction, records: seq<Record>, known: set<Hash>, n: nat)
    requires Chained(h, records) && n <= |records| && EventHashes(records) <= known
    ensures Verify(h, records[..n], known).breaks <= if n == |records| then 1 else 0
    ensures Complete(h, records) ==> Verify(h, records[..n], known).breaks == 0
  {
    if n > 0 {
      ChainBreaksAtTheEndOnly(h, records, known, n - 1);
      assert records[..n][..n - 1] == records[..n - 1];
      assert records[..n][n - 1] == records[n - 1];
      assert Intact(h, records[n - 1]);
      if n < |records| {
        assert Intact(h, records[n]) && records[n] in records;
        assert records[n - 1].prevHash == records[n].eventHash;
        assert records[n].eventHash.value in EventHashes(records);
      }
    }
  }

  // The verdict does not depend on the order of the records: the same records fail, and as many
  // pass and as many links lead nowhere.
  ghost predicate SameVerdict(v: Verification, w: Verification) {
    && v.verified == w.verified && v.breaks == w.breaks
    && multiset(v.tampered) == multiset(w.tampered) && multiset(v.unsealed) == multiset(w.unsealed)
  }

  lemma {:induction false} VerifyPush(h: HashFunction, r: seq<Record>, x: Record, known: set<Hash>)
    ensures Verify(h, r + [x], known) == Plus(Verify(h, r, known), Judge(h, x, known))
  {
    assert (r + [x])[..|r|] == r;
    hide Judge, Plus;
  }

  lemma PlusIsMonoid(v: Verification, w: Verification, u: Verification)
    ensures Plus(Plus(v, w), u) == Plus(v, Plus(w, u)) && Plus(v, Verification(0, [], [], 0)) == v
  {
  }

  lemma {:induction false} VerifyOfConcat(h: HashFunction, r: seq<Record>, q: seq<Record>, known: set<Hash>)
    ensures Verify(h, r + q, known) == Plus(Verify(h, r, known), Verify(h, q, known))
    decreases q
  {
    hide Judge, Plus;
    if q == [] {
      assert r + q == r;
      PlusIsMonoid(Verify(h, r, known), Verify(h, q, known), Verify(h, q, known));
    } else {
      hide Verify;
      var front, last := q[..|q| - 1], q[|q| - 1];
      assert q == front + [last] && r + q == (r + front) + [last];
      VerifyOfConcat(h, r, front, known);
      VerifyPush(h, r + front, last, known);
      VerifyPush(h, front, last, known);
      PlusIsMonoid(Verify(h, r, known), Verify(h, front, known), Judge(h, last, known));
    }
  }

  lemma {:induction false} VerifyOfOne(h: HashFunction, r: Record, known: set<Hash>)
    ensures Verify(h, [r], known) == Judge(h, r, known)
  {
    assert [r][..0] == [];
  }

  // A sealed record without a link is judged as the first of its chain: the genesis hash stands in.
  lemma {:induction false} MissingLinkIsGenesis(h: HashFunction, x: seq<Record>, r: Record, y: seq<Record>, known: set<Hash>,
                                                   genesis: string)
    requires r.prevHash.None? && |genesis| == 64 && forall k :: 0 <= k < 64 ==> genesis[k] == '0'
    ensures Verify(h, x + [r] + y, known) == Verify(h, x + [r.(prevHash := Some(Hash(genesis)))] + y, known)
  {
    var first := r.(prevHash := Some(Hash(genesis)));
    assert genesis == GENESIS.hex;
    VerifyOfConcat(h, x + [r], y, known);
    VerifyOfConcat(h, x + [first], y, known);
    VerifyPush(h, x, r, known);
    VerifyPush(h, x, first, known);
    hide Verify;
  }

  // A record that is added to an empty store, or on top of an unsealed one, starts a chain.
  lemma {:induction false} ChainStartsAtGenesis(h: HashFunction, records: seq<Record>, record: Record, cap: int, genesis: string)
    requires (records == [] || records[0].eventHash.None?) && cap >= 1
    requires |genesis| == 64 && forall k :: 0 <= k < 64 ==> genesis[k] == '0'
    ensures var after := Add(h, records, record, cap);
            && after != [] && after[0].core == record.core && after[0].prevHash == Some(Hash(genesis))
            && after[0].eventHash == Some(h(record.core, Hash(genesis)))
  {
    assert genesis == GENESIS.hex;
  }

  lemma VerdictMoves(v: Verification, w: Verification, u: Verification)
    ensures SameVerdict(Plus(Plus(v, w), u), Plus(Plus(v, u), w))
  {
  }

  // Taking one record out takes its own share out of the verdict.
  lemma {:induction false} VerdictWithout(h: HashFunction, x: seq<Record>, r: Record, y: seq<Record>, known: set<Hash>)
    ensures SameVerdict(Verify(h, x + [r] + y, known), Plus(Verify(h, x + y, known), Judge(h, r, known)))
  {
    hide Verify, Judge, Plus, SameVerdict;
    VerifyOfConcat(h, x + [r], y, known);
    VerifyOfConcat(h, x, [r], known);
    VerifyOfConcat(h, x, y, known);
    VerifyOfOne(h, r, known);
    VerdictMoves(Verify(h, x, known), Judge(h, r, known), Verify(h, y, known));
  }

  lemma CountWithout(x: seq<Record>, r: Record, y: seq<Record>)
    ensures multiset(x + [r] + y) == multiset(x + y) + multiset{r}
  {
  }

  lemma CancelOne(a: multiset<Record>, b: multiset<Record>, r: Record)
    requires a + multiset{r} == b + multiset{r}
    ensures a == b
  {
    assert a == (a + multiset{r}) - multiset{r};
    assert b == (b + multiset{r}) - multiset{r};
  }

  lemma VerdictsJoin(v: Verification, w: Verification, u: Verification, a: Verification, b: Verification)
    requires SameVerdict(v, Plus(a, u)) && SameVerdict(w, Plus(b, u)) && SameVerdict(a, b)
    ensures SameVerdict(v, w)
  {
  }

  lemma SplitAt(q: seq<Record>, r: Record) returns (x: seq<Record>, y: seq<Record>)
    requires r in multiset(q)
    ensures q == x + [r] + y
  {
    var k :| 0 <= k < |q| && q[k] == r;
    x, y := q[..k], q[k + 1..];
  }

  lemma {:induction false} VerdictIgnoresOrder(h: HashFunction, r: seq<Record>, q: seq<Record>, known: set<Hash>)
    requires multiset(r) == multiset(q)
    ensures SameVerdict(Verify(h, r, known), Verify(h, q, known))
    decreases |r|
  {
    if r == [] {
      assert |multiset(q)| == 0;
    } else {
      hide *;
      var last := r[|r| - 1];
      var x, y := SplitAt(r, last);
      var x', y' := SplitAt(q, last);
      CountWithout(x, last, y);
      CountWithout(x', last, y');
      CancelOne(multiset(x + y), multiset(x' + y'), last);
      VerdictIgnoresOrder(h, x + y, x' + y', known);
      VerdictWithout(h, x, last, y, known);
      VerdictWithout(h, x', last, y', known);
      VerdictsJoin(Verify(h, r, known), Verify(h, q, known), Judge(h, last, known),
                   Verify(h, x + y, known), Verify(h, x' + y', known));
    }
  }

  lemma {:induction false} VerificationIsOrderIndependent(h: HashFunction, r: seq<Record>, q: seq<Record>)
    requires multiset(r) == multiset(q)
    ensures var (v, w) := (Verify(h, r, EventHashes(r)), Verify(h, q, EventHashes(q)));
            SameVerdict(v, w) && (v.Ok() <==> w.Ok())
  {
    forall x: Record
      ensures x in r <==> x in q
    {
      assert x in multiset(r) <==> x in multiset(q);
    }
    assert EventHashes(r) == EventHashes(q);
    VerdictIgnoresOrder(h, r, q, EventHashes(r));
    var v, w := Verify(h, r, EventHashes(r)), Verify(h, q, EventHashes(q));
    assert |multiset(v.tampered)| == |multiset(w.tampered)| && |multiset(v.unsealed)| == |multiset(w.unsealed)|;
  }

  // --- Sealing records from before the chain ---

  predicate IsSealed(r: Record) {
    r.eventHash.Some?
  }

  // From the oldest record on, each unsealed one is linked to the one behind it.
  function SealMissing(h: HashFunction, records: seq<Record>): (sealed: seq<Record>)
    ensures |sealed| == |records| && forall r <- sealed :: IsSealed(r)
  {
    if records == [] then []
    else
      var behind := SealMissing(h, records[1..]);
      [if IsSealed(records[0]) then records[0] else Seal(h, records[0], HeadHash(behind))] + behind
  }

  method SealMissingInPlace(h: HashFunction, records: array<Record>) returns (changed: bool)
    modifies records
    ensures records[..] == SealMissing(h, old(records[..]))
    ensures changed <==> exists r <- old(records[..]) :: !IsSealed(r)
  {
    ghost var before := records[..];
    var n := records.Length;
    changed := false;
    var prev := GENESIS;
    var i := n;
    while i > 0
      invariant 0 <= i <= n && |before| == n
      invariant records[..i] == before[..i] && records[i..] == SealMissing(h, before[i..])
      invariant prev == HeadHash(records[i..])
      invariant changed <==> exists r <- before[i..] :: !IsSealed(r)
    {
      i := i - 1;
      var r := records[i];
      assert r == records[..i + 1][i] == before[i];
      assert before[i..] == [r] + before[i + 1..];
      assert before[i..][1..] == before[i + 1..];
      ghost var behind := records[i + 1..];
      if !IsSealed(r) {
        records[i] := Seal(h, r, prev);
        changed := true;
      }
      prev := records[i].eventHash.value;
      assert records[i + 1..] == behind;
      assert records[i..] == [records[i]] + behind;
      hide SealMissing;
    }
    assert before[0..] == before && records[0..] == records[..];
  }

  // Sealing changes no content and no sealed record.
  lemma {:induction false} SealingKeepsEvidence(h: HashFunction, records: seq<Record>, k: nat)
    requires k < |records|
    ensures var sealed := SealMissing(h, records)[k];
            if IsSealed(records[k]) then sealed == records[k]
            else sealed.core == records[k].core && Intact(h, sealed)
  {
    if k > 0 {
      SealingKeepsEvidence(h, records[1..], k - 1);
    }
  }

  // The check passes afterwards exactly if the records that were already sealed pass it.
  lemma {:induction false} SealedPassesIffItPassedBefore(h: HashFunction, records: seq<Record>)
    ensures var sealed := SealMissing(h, records);
            Verify(h, sealed, EventHashes(sealed)).Ok() <==>
            forall r <- records :: IsSealed(r) ==> Matches(h, r)
  {
    var sealed := SealMissing(h, records);
    VerifyFindsExactly(h, sealed, EventHashes(sealed));
    forall k | 0 <= k < |records|
      ensures IsSealed(records[k]) ==> sealed[k] == records[k]
      ensures !IsSealed(records[k]) ==> Intact(h, sealed[k]) && LinkOf(sealed[k]) == sealed[k].prevHash.value
    {
      SealingKeepsEvidence(h, records, k);
    }
    hide Verify, SealMissing, EventHashes, LinkOf;
    forall r | r in records && IsSealed(r)
      ensures r in sealed
    {
      var k :| 0 <= k < |records| && records[k] == r;
      assert sealed[k] == r;
    }
  }

  // So sealing does hide a change: one to record k is still noticed after it exactly if the record
  // carries a hash, and a wrong one. A record whose hashes were removed with it is sealed anew.
  lemma ForgeryIsDetectedAfterSealingIff(h: HashFunction, records: seq<Record>, k: nat, forged: Record)
    requires k < |records| && forall j :: 0 <= j < |records| && j != k && IsSealed(records[j]) ==> Matches(h, records[j])
    ensures var sealed := SealMissing(h, records[k := forged]);
            !Verify(h, sealed, EventHashes(sealed)).Ok() <==> IsSealed(forged) && !Matches(h, forged)
  {
    hide *;
    var after := records[k := forged];
    SealedPassesIffItPassedBefore(h, after);
    assert after[k] == forged && after[k] in after;
    forall r | r in after && IsSealed(r)
      ensures r == forged || Matches(h, r)
    {
      var j :| 0 <= j < |after| && after[j] == r;
      assert j != k ==> r == records[j];
    }
  }

  // As when the only record of a store is replaced: the check fails on it before sealing, passes after.
  lemma StrippedForgeryPasses(h: HashFunction, r: Record)
    requires r.eventHash.None?
    ensures !Verify(h, [r], EventHashes([r])).Ok()
    ensures var sealed := SealMissing(h, [r]); Verify(h, sealed, EventHashes(sealed)).Ok()
  {
    VerifyFindsExactly(h, [r], EventHashes([r]));
    assert r in [r];
    assert [r][0 := r] == [r];
    ForgeryIsDetectedAfterSealingIff(h, [r], 0, r);
    hide Verify, SealMissing, EventHashes;
  }

  // Unsealed records in front of a chain, or of nothing, become part of that chain.
  lemma {:induction false} SealingCompletesTheChain(h: HashFunction, recent: seq<Record>, chain: seq<Record>)
    requires (forall r <- recent :: !IsSealed(r)) && Complete(h, chain)
    ensures Complete(h, SealMissing(h, recent + chain))
    decreases recent
  {
    if recent == [] {
      assert recent + chain == chain;
      SealingChainsIsIdle(h, chain);
    } else {
      assert recent[0] in recent && (recent + chain)[1..] == recent[1..] + chain;
      SealingCompletesTheChain(h, recent[1..], chain);
      var behind := SealMissing(h, recent[1..] + chain);
      AddKeepsChain(h, behind, recent[0], |behind| + 1);
    }
  }

  lemma {:induction false} SealingChainsIsIdle(h: HashFunction, records: seq<Record>)
    requires forall r <- records :: IsSealed(r)
    ensures SealMissing(h, records) == records
  {
    if records != [] {
      SealingChainsIsIdle(h, records[1..]);
      assert records[0] in records;
    }
  }

  // --- Reviewing ---

  predicate CanTransition(from: ReviewState, to: ReviewState) {
    match from
    case Unreviewed => to.Reviewed? || to.NeedsChanges? || to.Rejected?
    case NeedsChanges => to.Reviewed? || to.Rejected? || to.Unreviewed?
    case Reviewed => to.Accepted? || to.NeedsChanges? || to.Unreviewed?
    case Accepted => to.NeedsChanges? || to.Unreviewed?
    case Rejected => to.Unreviewed? || to.NeedsChanges?
  }

  function StateOf(r: Record): ReviewState {
    if r.reviewState.Some? then r.reviewState.value else Unreviewed
  }

  function ApplyReview(r: Record, to: ReviewState, note: Option<string>, now: string): Record {
    var stateChanges := StateOf(r) != to && CanTransition(StateOf(r), to);
    var noteChanges := note.Some? && note != r.reviewNote;
    if !stateChanges && !noteChanges then r
    else r.(reviewState := if stateChanges then Some(to) else r.reviewState,
            reviewedAt := if stateChanges then Some(now) else r.reviewedAt,
            reviewNote := if note.Some? then note else r.reviewNote)
  }

  // --- Reordering ---

  datatype Target = Top | Bottom | Before(id: Id)

  // findIndex by id; the length stands for "not found".
  function IndexOf(records: seq<Record>, id: Id): (k: nat)
    ensures k <= |records|
    ensures k < |records| ==> records[k].core.id == id
    ensures forall l :: 0 <= l < k ==> records[l].core.id != id
  {
    if records == [] || records[0].core.id == id then 0 else 1 + IndexOf(records[1..], id)
  }

  // The dragged records, in dragged order; unknown ids give nothing.
  function Dragged(records: seq<Record>, ids: seq<Id>): seq<Record> {
    if ids == [] then []
    else
      var k := IndexOf(records, ids[0]);
      (if k < |records| then [records[k]] else []) + Dragged(records, ids[1..])
  }

  function Rest(records: seq<Record>, ids: seq<Id>): seq<Record> {
    if records == [] then []
    else (if records[0].core.id in ids then [] else [records[0]]) + Rest(records[1..], ids)
  }

  // Where among the remaining records the dragged ones go.
  function DropIndex(records: seq<Record>, ids: seq<Id>, target: Target): (k: nat)
    ensures k <= |Rest(records, ids)|
  {
    var rest := Rest(records, ids);
    match target
    case Top => 0
    case Bottom => |rest|
    case Before(id) =>
      var k := IndexOf(rest, id);
      if k < |rest| then k
      else
        // slice(0, originalIdx); an unknown id gives slice(0, -1).
        var original := IndexOf(records, id);
        var cut := if original < |records| then original else if |records| > 0 then |records| - 1 else 0;
        RestOfPrefix(records, ids, cut);
        |Rest(records[..cut], ids)|
  }

  function Reorder(records: seq<Record>, ids: seq<Id>, target: Target): seq<Record> {
    var dragged, rest, k := Dragged(records, ids), Rest(records, ids), DropIndex(records, ids, target);
    if dragged == [] then records else rest[..k] + dragged + rest[k..]
  }

  lemma {:induction false} RestOfPrefix(records: seq<Record>, ids: seq<Id>, cut: nat)
    requires cut <= |records|
    ensures |Rest(records[..cut], ids)| <= |Rest(records, ids)|
    ensures Rest(records[..cut], ids) == Rest(records, ids)[..|Rest(records[..cut], ids)|]
  {
    if cut > 0 {
      RestOfPrefix(records[1..], ids, cut - 1);
      assert records[..cut][1..] == records[1..][..cut - 1];
    }
  }

  ghost predicate UniqueIds(records: seq<Record>) {
    forall k, l :: 0 <= k < l < |records| ==> records[k].core.id != records[l].core.id
  }

  // No id of a stored record is dragged twice.
  ghost predicate DraggedOnce(records: seq<Record>, ids: seq<Id>) {
    forall i, j :: 0 <= i < j < |ids| && ids[i] == ids[j] ==> IndexOf(records, ids[i]) == |records|
  }

  function Occurrences(ids: seq<Id>, id: Id): nat {
    if ids == [] then 0 else (if ids[0] == id then 1 else 0) + Occurrences(ids[1..], id)
  }

  lemma {:induction false} DraggedCount(records: seq<Record>, ids: seq<Id>, r: Record)
    requires UniqueIds(records)
    ensures multiset(Dragged(records, ids))[r] == if r in records then Occurrences(ids, r.core.id) else 0
  {
    if ids != [] {
      DraggedCount(records, ids[1..], r);
      var k := IndexOf(records, ids[0]);
      if r in records && r.core.id == ids[0] {
        var l :| 0 <= l < |records| && records[l] == r;
        assert k == l;
      }
    }
  }

  lemma {:induction false} RestCount(records: seq<Record>, ids: seq<Id>, r: Record)
    ensures multiset(Rest(records, ids))[r] == if r.core.id in ids then 0 else multiset(records)[r]
  {
    if records != [] {
      RestCount(records[1..], ids, r);
      assert records == [records[0]] + records[1..];
    }
  }

  lemma {:induction false} UniqueCount(records: seq<Record>, r: Record)
    requires UniqueIds(records)
    ensures multiset(records)[r] == if r in records then 1 else 0
  {
    if records != [] {
      UniqueCount(records[1..], r);
      assert records == [records[0]] + records[1..];
      if records[0] == r {
        assert r !in records[1..];
      }
    }
  }

  lemma {:induction false} OccurrencesPositive(ids: seq<Id>, id: Id)
    ensures Occurrences(ids, id) > 0 <==> id in ids
    ensures Occurrences(ids, id) > 1 <==> exists i, j :: 0 <= i < j < |ids| && ids[i] == ids[j] == id
  {
    if ids != [] {
      OccurrencesPositive(ids[1..], id);
      if i, j :| 0 <= i < j < |ids| && ids[i] == ids[j] == id {
        if i > 0 {
          assert ids[1..][i - 1] == ids[1..][j - 1] == id;
        } else {
          assert ids[1..][j - 1] == id;
        }
      }
      if Occurrences(ids, id) > 1 {
        if ids[0] == id {
          var j :| 0 <= j < |ids[1..]| && ids[1..][j] == id;
          assert ids[0] == ids[j + 1] == id;
        } else {
          var i, j :| 0 <= i < j < |ids[1..]| && ids[1..][i] == ids[1..][j] == id;
          assert ids[i + 1] == ids[j + 1] == id;
        }
      }
    }
  }

  // How often a record is in the reordered list.
  lemma {:induction false} ReorderCount(records: seq<Record>, ids: seq<Id>, target: Target, r: Record)
    requires UniqueIds(records) && Dragged(records, ids) != []
    ensures multiset(Reorder(records, ids, target))[r] ==
            if r !in records then 0 else if r.core.id in ids then Occurrences(ids, r.core.id) else 1
  {
    var dragged, rest, k := Dragged(records, ids), Rest(records, ids), DropIndex(records, ids, target);
    DraggedCount(records, ids, r);
    RestCount(records, ids, r);
    UniqueCount(records, r);
    OccurrencesPositive(ids, r.core.id);
    hide Dragged, Rest, DropIndex, Occurrences;
    SpliceCount(rest, dragged, k, r);
  }

  lemma SpliceCount(rest: seq<Record>, dragged: seq<Record>, k: nat, r: Record)
    requires k <= |rest|
    ensures multiset(rest[..k] + dragged + rest[k..])[r] == multiset(rest)[r] + multiset(dragged)[r]
  {
    assert rest == rest[..k] + rest[k..];
  }

  // Reordering permutes the records exactly when no stored id is dragged twice.
  lemma ReorderPermutesIff(records: seq<Record>, ids: seq<Id>, target: Target)
    requires UniqueIds(records)
    ensures multiset(Reorder(records, ids, target)) == multiset(records) <==> DraggedOnce(records, ids)
  {
    var after := Reorder(records, ids, target);
    if Dragged(records, ids) == [] {
      NothingDragged(records, ids);
    } else if DraggedOnce(records, ids) {
      forall r: Record
        ensures multiset(after)[r] == multiset(records)[r]
      {
        ReorderCount(records, ids, target, r);
        UniqueCount(records, r);
        OccurrencesPositive(ids, r.core.id);
        if r in records {
          var l :| 0 <= l < |records| && records[l] == r;
          assert IndexOf(records, r.core.id) <= l;
        }
      }
    } else {
      var i, j :| 0 <= i < j < |ids| && ids[i] == ids[j] && IndexOf(records, ids[i]) < |records|;
      var r := records[IndexOf(records, ids[i])];
      ReorderCount(records, ids, target, r);
      UniqueCount(records, r);
      OccurrencesPositive(ids, r.core.id);
      assert multiset(after)[r] != multiset(records)[r];
    }
  }

  // As when the first of two records is dragged twice to the top.
  lemma DraggedTwiceDuplicates(a: Record, b: Record)
    requires a.core.id != b.core.id
    ensures UniqueIds([a, b]) && Reorder([a, b], [a.core.id, a.core.id], Top) == [a, a, b]
  {
    var ids := [a.core.id, a.core.id];
    assert ids[1..] == [a.core.id] && ids[1..][1..] == [];
    DragOfTwo(a, b, ids, 0);
    DragOfTwo(a, b, ids[1..], 0);
    assert Dragged([a, b], []) == [];
    RestOfTwo(a, b, ids);
    hide Dragged, Rest, IndexOf;
  }

  lemma {:induction false} DragOfTwo(a: Record, b: Record, ids: seq<Id>, k: nat)
    requires a.core.id != b.core.id && k < 2 && ids != [] && ids[0] == [a, b][k].core.id
    ensures Dragged([a, b], ids) == [[a, b][k]] + Dragged([a, b], ids[1..])
  {
    assert [a, b][1..] == [b] && IndexOf([b], b.core.id) == 0;
    assert IndexOf([a, b], ids[0]) == k;
    hide IndexOf;
  }

  lemma {:induction false} RestOfTwo(a: Record, b: Record, ids: seq<Id>)
    ensures Rest([a, b], ids) ==
            (if a.core.id in ids then [] else [a]) + (if b.core.id in ids then [] else [b])
  {
    assert [a, b][1..] == [b] && [b][1..] == [];
    assert Rest([b], ids) == if b.core.id in ids then [] else [b];
  }

  lemma {:induction false} NothingDragged(records: seq<Record>, ids: seq<Id>)
    requires Dragged(records, ids) == []
    ensures DraggedOnce(records, ids)
    ensures forall id <- ids :: IndexOf(records, id) == |records|
  {
    if ids != [] {
      NothingDragged(records, ids[1..]);
    }
  }

  // The records that are not dragged keep their order, and the dragged ones stand together in
  // dragged order.
  lemma {:induction false} ReorderKeepsOrder(records: seq<Record>, ids: seq<Id>, target: Target)
    requires Dragged(records, ids) != []
    ensures var (after, dragged, k) := (Reorder(records, ids, target), Dragged(records, ids), DropIndex(records, ids, target));
            && k + |dragged| <= |after|
            && after[..k] + after[k + |dragged|..] == Rest(records, ids)
            && after[k..k + |dragged|] == dragged
  {
    Splice(Rest(records, ids), Dragged(records, ids), DropIndex(records, ids, target));
    hide Dragged, Rest, DropIndex;
  }

  lemma Splice(rest: seq<Record>, dragged: seq<Record>, k: nat)
    requires k <= |rest|
    ensures var after := rest[..k] + dragged + rest[k..];
            after[..k] + after[k + |dragged|..] == rest && after[k..k + |dragged|] == dragged
  {
    var after := rest[..k] + dragged + rest[k..];
    assert after[k + |dragged|..] == rest[k..] && after[..k] == rest[..k];
    assert rest[..k] + rest[k..] == rest;
  }

  // Where they stand, target by target: first, last, right before the target, where a dragged
  // target stood, and right before the last record for an unknown target.
  lemma {:induction false} ReorderPlaces(records: seq<Record>, ids: seq<Id>, target: Target)
    requires Dragged(records, ids) != []
    ensures var (k, rest) := (DropIndex(records, ids, target), Rest(records, ids));
            && records != []
            && (target.Top? ==> k == 0)
            && (target.Bottom? ==> k == |rest|)
            && (target.Before? ==>
                  var original := IndexOf(records, target.id);
                  if original == |records| then rest[..k] == Rest(records[..|records| - 1], ids)
                  else if target.id in ids then rest[..k] == Rest(records[..original], ids)
                  else k < |rest| && rest[k].core.id == target.id)
  {
    DraggedIsStored(records, ids);
    assert Dragged(records, ids)[0] in Dragged(records, ids);
    if target.Before? {
      RestKeeps(records, ids, target.id);
      RestOfPrefix(records, ids, IndexOf(records, target.id));
      RestOfPrefix(records, ids, |records| - 1);
    }
  }

  lemma {:induction false} DraggedIsStored(records: seq<Record>, ids: seq<Id>)
    ensures forall r <- Dragged(records, ids) :: r in records
  {
    if ids != [] {
      DraggedIsStored(records, ids[1..]);
    }
  }

  lemma {:induction false} RestKeeps(records: seq<Record>, ids: seq<Id>, id: Id)
    ensures forall r <- Rest(records, ids) :: r in records
    ensures IndexOf(Rest(records, ids), id) < |Rest(records, ids)| <==>
            id !in ids && IndexOf(records, id) < |records|
  {
    if records != [] {
      RestKeeps(records[1..], ids, id);
      var rest := Rest(records, ids);
      if records[0].core.id in ids {
        assert rest == Rest(records[1..], ids);
      } else {
        assert rest[0] == records[0] && rest[1..] == Rest(records[1..], ids);
      }
    }
  }

  // --- Every operation ---

  datatype Operation =
    | AddRecord(record: Record, cap: int)
    | Remove(id: Id)
    | Move(ids: seq<Id>, target: Target)
    | Classify(id: Id, source: Source, confidence: Option<real>)
    | Review(id: Id, state: ReviewState, note: Option<string>, now: string)
    | Clear

  function DefaultConfidence(source: Source): real {
    match source
    case Ai => 0.99
    case Paste => 0.95
    case UnknownSource => 0.5
  }

  function Apply(h: HashFunction, records: seq<Record>, op: Operation): seq<Record> {
    match op
    case AddRecord(record, cap) => Add(h, records, record, cap)
    case Remove(id) =>
      var k := IndexOf(records, id);
      if k < |records| then records[..k] + records[k + 1..] else records
    case Move(ids, target) => Reorder(records, ids, target)
    case Classify(id, source, confidence) =>
      var k := IndexOf(records, id);
      if k == |records| then records
      else records[k := records[k].(source := source,
                                    confidence := if confidence.Some? then confidence.value else DefaultConfidence(source))]
    case Review(id, state, note, now) =>
      var k := IndexOf(records, id);
      if k == |records| then records else records[k := ApplyReview(records[k], state, note, now)]
    case Clear => []
  }

  class Store {
    const h: HashFunction
    var records: seq<Record>

    constructor (h: HashFunction)
      ensures this.h == h && records == []
    {
      this.h := h;
      records := [];
    }

    method AddRecord(record: Record, cap: int) returns (added: Record)
      modifies this
      ensures records == Apply(h, old(records), Operation.AddRecord(record, cap))
      ensures added == Seal(h, record, HeadHash(old(records)))
    {
      var prev := if |records| > 0 && records[0].eventHash.Some? then records[0].eventHash.value else GENESIS;
      added := record.(prevHash := Some(prev), eventHash := Some(h(record.core, prev)));
      records := [added] + records;
      if |records| > cap {
        records := Capped(records, cap);
      }
    }

    method Remove(id: Id) returns (removed: bool)
      modifies this
      ensures records == Apply(h, old(records), Operation.Remove(id))
      ensures removed <==> exists r <- old(records) :: r.core.id == id
    {
      var k := IndexOf(records, id);
      if k == |records| {
        return false;
      }
      assert records[k] in records;
      records := records[..k] + records[k + 1..];
      removed := true;
    }

    method Move(ids: seq<Id>, target: Target)
      modifies this
      ensures records == Apply(h, old(records), Operation.Move(ids, target))
    {
      hide Dragged, Rest, IndexOf;
      var dragged := Dragged(records, ids);
      if |dragged| == 0 {
        return;
      }
      var rest := Rest(records, ids);
      match target
      case Top => records := dragged + rest;
      case Bottom => records := rest + dragged;
      case Before(id) =>
        var k := DropIndex(records, ids, target);
        records := rest[..k] + dragged + rest[k..];
    }

    method SetClassification(id: Id, source: Source, confidence: Option<real>)
      modifies this
      ensures records == Apply(h, old(records), Classify(id, source, confidence))
    {
      var k := IndexOf(records, id);
      if k < |records| {
        var value := if confidence.Some? then confidence.value else DefaultConfidence(source);
        records := records[k := records[k].(source := source, confidence := value)];
      }
    }

    method SetReviewState(id: Id, state: ReviewState, note: Option<string>, now: string)
      modifies this
      ensures records == Apply(h, old(records), Review(id, state, note, now))
    {
      var k := IndexOf(records, id);
      if k < |records| {
        records := records[k := ApplyReview(records[k], state, note, now)];
      }
    }

    method ClearAll()
      modifies this
      ensures records == Apply(h, old(records), Clear)
    {
      records := [];
    }
  }

  // --- What each operation does, by the place of the first record with the id ---

  lemma {:induction false} IndexIsFirst(x: seq<Record>, r: Record, y: seq<Record>)
    requires forall s <- x :: s.core.id != r.core.id
    ensures IndexOf(x + [r] + y, r.core.id) == |x|
  {
    var all := x + [r] + y;
    assert all[|x|] == r;
    assert forall l :: 0 <= l < |x| ==> all[l] == x[l] && x[l] in x;
  }

  // Exactly the first record with the id is removed; all others stay in their order.
  lemma RemoveTakesOne(h: HashFunction, x: seq<Record>, r: Record, y: seq<Record>)
    requires forall s <- x :: s.core.id != r.core.id
    ensures Apply(h, x + [r] + y, Operation.Remove(r.core.id)) == x + y
  {
    IndexIsFirst(x, r, y);
    var all := x + [r] + y;
    assert all[..|x|] == x && all[|x| + 1..] == y;
    hide IndexOf;
  }

  // Exactly that record gets the source, and the given confidence or the default of the source.
  lemma ClassifyChangesOne(h: HashFunction, x: seq<Record>, r: Record, y: seq<Record>, source: Source,
                           confidence: Option<real>)
    requires forall s <- x :: s.core.id != r.core.id
    ensures var value := if confidence.Some? then confidence.value
                         else if source.Ai? then 0.99 else if source.Paste? then 0.95 else 0.5;
            Apply(h, x + [r] + y, Classify(r.core.id, source, confidence)) ==
            x + [r.(source := source, confidence := value)] + y
  {
    IndexIsFirst(x, r, y);
    hide IndexOf;
  }

  // Exactly that record is reviewed.
  lemma ReviewChangesOne(h: HashFunction, x: seq<Record>, r: Record, y: seq<Record>, state: ReviewState,
                         note: Option<string>, now: string)
    requires forall s <- x :: s.core.id != r.core.id
    ensures Apply(h, x + [r] + y, Review(r.core.id, state, note, now)) == x + [ApplyReview(r, state, note, now)] + y
  {
    IndexIsFirst(x, r, y);
    hide IndexOf, ApplyReview;
  }

  // An id that no record has changes nothing, and clearing leaves nothing.
  lemma UnknownIdChangesNothing(h: HashFunction, records: seq<Record>, op: Operation)
    requires op.Remove? || op.Classify? || op.Review?
    requires forall s <- records :: s.core.id != op.id
    ensures Apply(h, records, op) == records && Apply(h, records, Clear) == []
  {
    hide ApplyReview;
    forall l | 0 <= l < |records|
      ensures records[l].core.id != op.id
    {
      assert records[l] in records;
    }
  }

  // The moves of the review lifecycle, state by state.
  ghost predicate Allowed(from: ReviewState, to: ReviewState) {
    (from, to) in {
      (Unreviewed, Reviewed), (Unreviewed, NeedsChanges), (Unreviewed, Rejected),
      (NeedsChanges, Reviewed), (NeedsChanges, Rejected), (NeedsChanges, Unreviewed),
      (Reviewed, Accepted), (Reviewed, NeedsChanges), (Reviewed, Unreviewed),
      (Accepted, NeedsChanges), (Accepted, Unreviewed),
      (Rejected, Unreviewed), (Rejected, NeedsChanges)}
  }

  // A review moves a record exactly if the move is allowed.
  lemma ReviewMovesIffAllowed(r: Record, to: ReviewState, note: Option<string>, now: string)
    ensures var from := if r.reviewState.Some? then r.reviewState.value else Unreviewed;
            StateOf(ApplyReview(r, to, note, now)) == if Allowed(from, to) then to else from
  {
  }

  // Every record after an operation is a record from before it, up to review and classification,
  // or the one just added: its core, its hash and its link are untouched.
  ghost predicate SameEvidence(r: Record, s: Record) {
    r.core == s.core && r.eventHash == s.eventHash && r.prevHash == s.prevHash
  }

  lemma MoveKeepsEvidence(records: seq<Record>, ids: seq<Id>, target: Target, r: Record)
    requires r in Reorder(records, ids, target)
    ensures r in records
  {
    DraggedIsStored(records, ids);
    RestIsStored(records, ids);
    var rest, k := Rest(records, ids), DropIndex(records, ids, target);
    assert rest == rest[..k] + rest[k..];
    hide Dragged, Rest, DropIndex;
  }

  lemma AddKeepsEvidence(h: HashFunction, records: seq<Record>, record: Record, cap: int, r: Record)
    requires r in Add(h, records, record, cap)
    ensures r in records || r == Seal(h, record, HeadHash(records))
  {
    hide Seal;
  }

  lemma UpdateKeepsEvidence(records: seq<Record>, k: nat, s: Record, r: Record)
    requires k < |records| && SameEvidence(s, records[k]) && r in records[k := s]
    ensures exists t <- records :: SameEvidence(r, t)
  {
    var l :| 0 <= l < |records| && records[k := s][l] == r;
    assert SameEvidence(r, records[l]) && records[l] in records;
  }

  lemma OperationKeepsEvidence(h: HashFunction, records: seq<Record>, op: Operation, r: Record)
    requires r in Apply(h, records, op)
    ensures (exists s <- records :: SameEvidence(r, s)) ||
            (op.AddRecord? && r == Seal(h, op.record, HeadHash(records)))
  {
    hide Reorder, Add, Seal;
    if op.Move? {
      MoveKeepsEvidence(records, op.ids, op.target, r);
    } else if op.AddRecord? {
      AddKeepsEvidence(h, records, op.record, op.cap, r);
    } else if op.Classify? || op.Review? {
      var k := IndexOf(records, op.id);
      if k < |records| {
        UpdateKeepsEvidence(records, k, Apply(h, records, op)[k], r);
      }
    }
    assert SameEvidence(r, r);
    hide IndexOf, ApplyReview;
  }

  lemma {:induction false} RestIsStored(records: seq<Record>, ids: seq<Id>)
    ensures forall r <- Rest(records, ids) :: r in records
  {
    RestKeeps(records, ids, Id(""));
  }

  function Run(h: HashFunction, records: seq<Record>, ops: seq<Operation>): seq<Record>
    decreases ops
  {
    if ops == [] then records else Run(h, Apply(h, records, ops[0]), ops[1..])
  }

  lemma {:induction false} RunKeepsIntact(h: HashFunction, records: seq<Record>, ops: seq<Operation>)
    requires AllIntact(h, records)
    ensures AllIntact(h, Run(h, records, ops))
    decreases ops
  {
    if ops != [] {
      forall r | r in Apply(h, records, ops[0])
        ensures Intact(h, r)
      {
        OperationKeepsEvidence(h, records, ops[0], r);
      }
      RunKeepsIntact(h, Apply(h, records, ops[0]), ops[1..]);
    }
  }

  // No run of the store's own operations makes the verifier raise a false alarm.
  lemma {:induction false} NoFalseAlarm(h: HashFunction, ops: seq<Operation>)
    ensures var records := Run(h, [], ops); Verify(h, records, EventHashes(records)).Ok()
  {
    RunKeepsIntact(h, [], ops);
    var records := Run(h, [], ops);
    VerifyFindsExactly(h, records, EventHashes(records));
  }

  // Runs of additions only, under any caps: the retained records are one chain, with at most the
  // one break that the cap makes; while nothing was dropped, the chain is complete.
  ghost predicate AdditionsOnly(ops: seq<Operation>) {
    forall op <- ops :: op.AddRecord?
  }

  lemma {:induction false} AdditionsStayChained(h: HashFunction, records: seq<Record>, ops: seq<Operation>)
    requires Chained(h, records) && AdditionsOnly(ops)
    ensures Chained(h, Run(h, records, ops))
    ensures Complete(h, records) && (forall op <- ops :: op.cap >= |records| + |ops|) ==>
              Complete(h, Run(h, records, ops)) && |Run(h, records, ops)| == |records| + |ops|
    decreases ops
  {
    if ops != [] {
      var op := ops[0];
      assert op in ops && forall o <- ops[1..] :: o in ops;
      AddKeepsChain(h, records, op.record, op.cap);
      AdditionsStayChained(h, Apply(h, records, op), ops[1..]);
    }
  }

  // Two add-only histories under no cap that end in the same head hash are the same history.
  lemma {:induction false} SameHeadSameHistory(h: HashFunction, ops: seq<Operation>, others: seq<Operation>)
    requires Injective(h) && NeverGenesis(h) && AdditionsOnly(ops) && AdditionsOnly(others)
    requires (forall op <- ops :: op.cap >= |ops|) && (forall op <- others :: op.cap >= |others|)
    requires HeadHash(Run(h, [], ops)) == HeadHash(Run(h, [], others))
    ensures var (r, q) := (Run(h, [], ops), Run(h, [], others));
            |r| == |q| == |ops| == |others| && forall k :: 0 <= k < |r| ==> r[k].core == q[k].core
  {
    AdditionsStayChained(h, [], ops);
    AdditionsStayChained(h, [], others);
    HeadFixesHistory(h, Run(h, [], ops), Run(h, [], others));
  }

  // --- Adding after reordering ---

  ghost predicate SameOrder(p: seq<Record>, q: seq<Record>) {
    |p| == |q| && forall k :: 0 <= k < |q| ==> SameEvidence(p[k], q[k])
  }

  lemma OrderMakesTheChain(h: HashFunction, p: seq<Record>, records: seq<Record>)
    requires SameOrder(p, records) && Complete(h, records)
    ensures Complete(h, p)
  {
    forall k | 0 <= k < |p|
      ensures Intact(h, p[k])
    {
      assert SameEvidence(p[k], records[k]) && Intact(h, records[k]);
    }
    forall k | 0 <= k < |p| - 1
      ensures p[k].prevHash == p[k + 1].eventHash
    {
      assert SameEvidence(p[k], records[k]) && SameEvidence(p[k + 1], records[k + 1]);
    }
  }

  // Only the last record of a chain can be linked to the genesis hash.
  lemma GenesisComesLast(h: HashFunction, p: seq<Record>, k: nat)
    requires NeverGenesis(h) && Chained(h, p) && k < |p| && p[k].prevHash == Some(GENESIS)
    ensures k == |p| - 1
  {
    if k < |p| - 1 {
      LinkIsNotGenesis(h, p, k);
    }
  }

  lemma LinkIsNotGenesis(h: HashFunction, p: seq<Record>, k: nat)
    requires NeverGenesis(h) && Chained(h, p) && k < |p| - 1
    ensures p[k].prevHash != Some(GENESIS)
  {
    assert Intact(h, p[k + 1]) && p[k].prevHash == p[k + 1].eventHash;
  }

  lemma IndexOfMember(p: seq<Record>, q: seq<Record>, k: nat) returns (i: nat)
    requires multiset(p) == multiset(q) && k < |q|
    ensures i < |p| && p[i] == q[k]
  {
    assert q[k] in multiset(q);
    assert q[k] in multiset(p);
    i :| 0 <= i < |p| && p[i] == q[k];
  }

  lemma CompleteIff(h: HashFunction, p: seq<Record>)
    requires p != []
    ensures Complete(h, p) <==> Chained(h, p) && p[|p| - 1].prevHash == Some(GENESIS)
  {
    hide Chained;
  }

  lemma SameTopSameHead(p: seq<Record>, q: seq<Record>)
    requires p != [] && q != [] && p[0] == q[0]
    ensures HeadHash(p) == HeadHash(q)
  {
  }

  lemma ChainedAgainKeepsOrder(h: HashFunction, records: seq<Record>, p: seq<Record>)
    requires Injective(h) && NeverGenesis(h) && Complete(h, records) && Chained(h, p)
    requires multiset(p) == multiset(records) && |p| == |records| > 0
    ensures SameOrder(p, records)
  {
    hide *;
    CompleteIff(h, records);
    CompleteIff(h, p);
    var last := IndexOfMember(p, records, |records| - 1);
    GenesisComesLast(h, p, last);
    var first := IndexOfMember(p, records, 0);
    SuffixIsComplete(h, p, first);
    SameTopSameHead(p[first..], records);
    HeadFixesHistory(h, p[first..], records);
    SameTopSameHead(p, records);
    assert p[0..] == p;
    EqualHeadsKeepOrder(h, records, p);
  }

  lemma EqualHeadsKeepOrder(h: HashFunction, records: seq<Record>, p: seq<Record>)
    requires Injective(h) && Chained(h, records) && Chained(h, p)
    requires |p| == |records| > 0 && HeadHash(p) == HeadHash(records)
    ensures SameOrder(p, records)
  {
    hide Injective, Chained, HeadHash;
    forall k | 0 <= k < |records|
      ensures SameEvidence(p[k], records[k])
    {
      HeadFixesWhatIsRetained(h, p, records, k);
    }
  }

  // Reordered records are a chain again exactly if they stand in their old order.
  lemma ReorderedChainIff(h: HashFunction, records: seq<Record>, p: seq<Record>)
    requires Injective(h) && NeverGenesis(h) && Complete(h, records) && multiset(p) == multiset(records)
    ensures Chained(h, p) <==> SameOrder(p, records)
  {
    assert |multiset(p)| == |p| && |multiset(records)| == |records|;
    if SameOrder(p, records) {
      OrderMakesTheChain(h, p, records);
    } else if Chained(h, p) && records != [] {
      ChainedAgainKeepsOrder(h, records, p);
    }
    hide Injective, NeverGenesis;
  }

  // A record added then is linked to the top record, not to the newest: its link is one that a
  // stored record has already, exactly if the newest record was moved away from the top.
  lemma AddForksIff(h: HashFunction, records: seq<Record>, p: seq<Record>)
    requires Injective(h) && NeverGenesis(h) && Complete(h, records) && multiset(p) == multiset(records) && p != []
    ensures (exists r <- p :: r.prevHash == Some(HeadHash(p))) <==> HeadHash(p) != HeadHash(records)
  {
    assert |multiset(p)| == |p| && |multiset(records)| == |records|;
    var m := IndexOfMember(records, p, 0);
    assert Intact(h, records[0]) && Intact(h, records[m]);
    if HeadHash(p) != HeadHash(records) {
      assert Intact(h, records[m - 1]) && records[m - 1].prevHash == records[m].eventHash;
      var i := IndexOfMember(p, records, m - 1);
      assert p[i] in p;
    } else if r :| r in p && r.prevHash == Some(HeadHash(p)) {
      var i :| 0 <= i < |p| && p[i] == r;
      var n := IndexOfMember(records, p, i);
      LinksGoBack(h, records, n);
    }
  }

  // No record of a complete chain is linked to its newest one.
  lemma LinksGoBack(h: HashFunction, records: seq<Record>, n: nat)
    requires Injective(h) && NeverGenesis(h) && Complete(h, records) && n < |records|
    ensures records[n].prevHash != Some(HeadHash(records))
  {
    assert Intact(h, records[0]) && Intact(h, records[n]);
    if n < |records| - 1 {
      assert Intact(h, records[n + 1]) && records[n].prevHash == records[n + 1].eventHash;
      HashesAreDistinct(h, records, 0, n + 1);
    }
  }

  // So after reordering and adding, the head hash fixes the history as before exactly if the
  // reordering left the order alone: only then do the records form a chain.
  lemma AddAfterReorderChainsIff(h: HashFunction, records: seq<Record>, p: seq<Record>, record: Record, cap: int)
    requires Injective(h) && NeverGenesis(h) && Complete(h, records) && multiset(p) == multiset(records)
    requires |p| < cap
    ensures Complete(h, Add(h, p, record, cap)) <==> SameOrder(p, records)
  {
    ReorderedChainIff(h, records, p);
    var after := Add(h, p, record, cap);
    assert after[1..] == p;
    if SameOrder(p, records) {
      OrderMakesTheChain(h, p, records);
      AddKeepsChain(h, p, record, cap);
    } else if Complete(h, after) {
      SuffixIsComplete(h, after, 1);
    }
  }

  // As when the older of two records is dragged to the top and a third is added.
  lemma MoveThenAddForks(h: HashFunction, a: Record, b: Record, c: Record)
    requires a.core.id != b.core.id
    ensures var s := Run(h, [], [Operation.AddRecord(a, 9), Operation.AddRecord(b, 9), Operation.Move([a.core.id], Top),
                                 Operation.AddRecord(c, 9)]);
            |s| == 3 && s[0].core == c.core && s[2].core == b.core && s[0].prevHash == s[2].prevHash
  {
    var ops := [Operation.AddRecord(a, 9), Operation.AddRecord(b, 9), Operation.Move([a.core.id], Top),
                Operation.AddRecord(c, 9)];
    var x := Seal(h, a, GENESIS);
    var y := Seal(h, b, x.eventHash.value);
    var z := Seal(h, c, x.eventHash.value);
    assert Apply(h, [], ops[0]) == [x] && Apply(h, [x], ops[1]) == [y, x];
    MoveOfTwo(y, x);
    assert Apply(h, [y, x], ops[2]) == [x, y] && Apply(h, [x, y], ops[3]) == [z, x, y];
    assert ops[1..] == [ops[1], ops[2], ops[3]] && ops[1..][1..] == [ops[2], ops[3]];
    assert [ops[2], ops[3]][1..] == [ops[3]] && [ops[3]][1..] == [];
    hide Apply, Seal;
    assert Run(h, [x, y], [ops[3]]) == Run(h, [z, x, y], []) == [z, x, y];
    assert Run(h, [y, x], [ops[2], ops[3]]) == [z, x, y];
    assert Run(h, [x], ops[1..]) == [z, x, y];
  }

  lemma MoveOfTwo(y: Record, x: Record)
    requires y.core.id != x.core.id
    ensures Reorder([y, x], [x.core.id], Top) == [x, y]
  {
    var ids := [x.core.id];
    DragOfTwo(y, x, ids, 1);
    assert Dragged([y, x], []) == [];
    RestOfTwo(y, x, ids);
    hide Dragged, Rest, IndexOf;
  }

  // A record is accepted only after it was reviewed.
  lemma AcceptedOnlyFromReviewed(r: Record, to: ReviewState, note: Option<string>, now: string)
    ensures var after := ApplyReview(r, to, note, now);
            && after.core == r.core
            && (StateOf(after) != StateOf(r) ==> CanTransition(StateOf(r), StateOf(after)))
            && (StateOf(after).Accepted? ==> StateOf(r).Accepted? || StateOf(r).Reviewed?)
            && after.reviewedAt == (if StateOf(after) != StateOf(r) then Some(now) else r.reviewedAt)
            && after.reviewNote == (if note.Some? then note else r.reviewNote)
            && after.(reviewState := r.reviewState, reviewedAt := r.reviewedAt, reviewNote := r.reviewNote) == r
  {
  }
}
