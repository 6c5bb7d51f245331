// The claim table of the correlator: a captured prompt is attributed to one insertion and then
// blocked, in a map kept in order of last use, pruned by age and by size.
module ClaimTable {

  const REQUEST_CLAIM_RETENTION_MS := 300000
  const MAX_CLAIMED_PROMPT_REQUEST_IDS := 1024

  datatype RequestId = RequestId(text: string)

  // One entry of the map; the sequence of entries is the map's insertion order.
  datatype Claim = Claim(id: RequestId, at: int)

  // log lists every use of an entry: looked up while claimed, or claimed.
  datatype State = State(claims: seq<Claim>, log: seq<RequestId>)

  // One correlation: the clock at its first prune, the ids of the candidates in the window, which
  // available one the ranking picks, and the clock when claiming and at the second prune; or the
  // reset when the proxy stops.
  datatype Event =
    | Correlate(start: int, candidates: seq<RequestId>, choice: nat, claimedAt: int, pruned: int)
    | Reset

  datatype Attribution = NoPrompt | Prompt(id: RequestId)

  // --- The map's operations ---

  predicate IsClaimed(claims: seq<Claim>, id: RequestId) {
    exists c <- claims :: c.id == id
  }

  function Fresh(claims: seq<Claim>, cutoff: int): seq<Claim> {
    if claims == [] then []
    else (if claims[0].at < cutoff then [] else [claims[0]]) + Fresh(claims[1..], cutoff)
  }

  function Newest(claims: seq<Claim>): seq<Claim> {
    if |claims| > MAX_CLAIMED_PROMPT_REQUEST_IDS then claims[|claims| - MAX_CLAIMED_PROMPT_REQUEST_IDS..] else claims
  }

  function Prune(claims: seq<Claim>, now: int): seq<Claim> {
    Newest(Fresh(claims, now - REQUEST_CLAIM_RETENTION_MS))
  }

  function Without(claims: seq<Claim>, id: RequestId): seq<Claim> {
    if claims == [] then []
    else (if claims[0].id == id then [] else [claims[0]]) + Without(claims[1..], id)
  }

  function TimeOf(claims: seq<Claim>, id: RequestId): int
    requires IsClaimed(claims, id)
  {
    if claims[0].id == id then claims[0].at else TimeOf(claims[1..], id)
  }

  // isClaimedPromptRequestId moves a claimed id to the end, with its time.
  function Touch(s: State, id: RequestId): State {
    if IsClaimed(s.claims, id)
    then State(Without(s.claims, id) + [Claim(id, TimeOf(s.claims, id))], s.log + [id])
    else s
  }

  function TouchAll(s: State, ids: seq<RequestId>): State
    decreases ids
  {
    if ids == [] then s else TouchAll(Touch(s, ids[0]), ids[1..])
  }

  function Available(claims: seq<Claim>, ids: seq<RequestId>): (r: seq<RequestId>)
    ensures forall id <- r :: id in ids && !IsClaimed(claims, id)
  {
    if ids == [] then []
    else (if IsClaimed(claims, ids[0]) then [] else [ids[0]]) + Available(claims, ids[1..])
  }

  function Remember(s: State, id: RequestId, at: int): State {
    State(Without(s.claims, id) + [Claim(id, at)], s.log + [id])
  }

  // --- One correlation ---

  function Attributed(s: State, e: Event): Attribution {
    if e.Reset? then NoPrompt
    else
      var available := Available(Prune(s.claims, e.start), e.candidates);
      if e.choice < |available| then Prompt(available[e.choice]) else NoPrompt
  }

  function Step(s: State, e: Event): State {
    match e
    case Reset => State([], s.log)
    case Correlate(start, candidates, choice, claimedAt, pruned) =>
      var touched := TouchAll(State(Prune(s.claims, start), s.log), candidates);
      var winner := Attributed(s, e);
      if winner.NoPrompt? then touched
      else
        var remembered := Remember(touched, winner.id, claimedAt);
        State(Prune(remembered.claims, pruned), remembered.log)
  }

  lemma {:induction false} FreshUnfolds(claims: seq<Claim>, cutoff: int, k: nat)
    requires k < |claims|
    ensures Fresh(claims[k..], cutoff) ==
            (if claims[k].at >= cutoff then [claims[k]] else []) + Fresh(claims[k + 1..], cutoff)
  {
    assert claims[k..][1..] == claims[k + 1..];
  }

  lemma {:induction false} FreshEnds(claims: seq<Claim>, cutoff: int)
    ensures Fresh(claims[|claims|..], cutoff) == []
  {
  }

  lemma NewestUnfolds(claims: seq<Claim>)
    ensures Newest(claims) == if |claims| > MAX_CLAIMED_PROMPT_REQUEST_IDS then Newest(claims[1..]) else claims
  {
  }

  // --- The module's variable and functions ---

  class ClaimedPromptRequestIds {
    var claims: seq<Claim>
    ghost var log: seq<RequestId>

    constructor ()
      ensures claims == [] && log == []
    {
      claims, log := [], [];
    }

    method PruneAt(now: int)
      modifies this`claims
      ensures claims == Prune(old(claims), now)
    {
      hide Fresh, Newest;
      var cutoff := now - REQUEST_CLAIM_RETENTION_MS;
      var kept, k := [], 0;
      assert claims[0..] == claims;
      while k < |claims|
        invariant 0 <= k <= |claims| && claims == old(claims)
        invariant Fresh(claims, cutoff) == kept + Fresh(claims[k..], cutoff)
      {
        FreshUnfolds(claims, cutoff, k);
        if claims[k].at >= cutoff {
          kept := kept + [claims[k]];
        }
        k := k + 1;
      }
      FreshEnds(claims, cutoff);
      assert kept + [] == kept == Fresh(old(claims), cutoff);
      claims := kept;
      while |claims| > MAX_CLAIMED_PROMPT_REQUEST_IDS
        invariant Newest(claims) == Newest(kept)
      {
        NewestUnfolds(claims);
        claims := claims[1..];
      }
      NewestUnfolds(claims);
    }

    method LookUp(id: RequestId) returns (claimed: bool)
      modifies this
      ensures claimed <==> IsClaimed(old(claims), id)
      ensures State(claims, log) == Touch(State(old(claims), old(log)), id)
    {
      if !IsClaimed(claims, id) {
        return false;
      }
      var at := TimeOf(claims, id);
      claims := Without(claims, id) + [Claim(id, at)];
      log := log + [id];
      claimed := true;
    }

    method RememberAt(id: RequestId, at: int, pruned: int)
      modifies this
      ensures log == old(log) + [id]
      ensures claims == Prune(Remember(State(old(claims), old(log)), id, at).claims, pruned)
    {
      claims := Without(claims, id) + [Claim(id, at)];
      log := log + [id];
      PruneAt(pruned);
    }

    // The filter over the window's candidates.
    method FilterAvailable(candidates: seq<RequestId>) returns (available: seq<RequestId>)
      modifies this
      ensures State(claims, log) == TouchAll(State(old(claims), old(log)), candidates)
      ensures available == Available(old(claims), candidates)
    {
      available := [];
      ghost var s := State(claims, log);
      var k := 0;
      while k < |candidates|
        invariant 0 <= k <= |candidates|
        invariant Filtering(s, State(claims, log), candidates, k, available)
      {
        hide Filtering, Touch, IsClaimed;
        FilterStep(s, State(claims, log), candidates, k, available);
        var claimed := LookUp(candidates[k]);
        if !claimed {
          available := available + [candidates[k]];
        }
        k := k + 1;
      }
    }

    // The claim-table part of correlateInsertionWithProxyRequest.
    method CorrelateInsertion(e: Event) returns (winner: Attribution)
      requires e.Correlate?
      modifies this
      ensures winner == Attributed(State(old(claims), old(log)), e)
      ensures State(claims, log) == Step(State(old(claims), old(log)), e)
    {
      hide Prune, TouchAll, Available;
      PruneAt(e.start);
      var available := FilterAvailable(e.candidates);
      if e.choice >= |available| {
        return NoPrompt;
      }
      winner := Prompt(available[e.choice]);
      RememberAt(winner.id, e.claimedAt, e.pruned);
    }
  }

  // --- What the operations keep ---

  // The distinct ids used since x was last used.
  ghost function Since(log: seq<RequestId>, x: RequestId): set<RequestId> {
    if log == [] || log[|log| - 1] == x then {}
    else Since(log[..|log| - 1], x) + {log[|log| - 1]}
  }

  // No id twice, and entries in order of last use: what stands behind an entry was used after it.
  ghost predicate Tidy(claims: seq<Claim>, log: seq<RequestId>) {
    claims == [] ||
    ((forall c <- claims[1..] :: c.id != claims[0].id && c.id in Since(log, claims[0].id)) && Tidy(claims[1..], log))
  }

  ghost predicate Inv(s: State) {
    Tidy(s.claims, s.log) && |s.claims| <= MAX_CLAIMED_PROMPT_REQUEST_IDS
  }

  ghost predicate SameIds(claims: seq<Claim>, others: seq<Claim>) {
    forall id :: IsClaimed(claims, id) <==> IsClaimed(others, id)
  }

  lemma HeadOrTail(claims: seq<Claim>)
    requires claims != []
    ensures forall c :: c in claims <==> c == claims[0] || c in claims[1..]
  {
  }

  lemma {:induction false} FreshMembers(claims: seq<Claim>, cutoff: int)
    ensures |Fresh(claims, cutoff)| <= |claims|
    ensures forall c :: c in Fresh(claims, cutoff) <==> c in claims && c.at >= cutoff
  {
    if claims != [] {
      FreshMembers(claims[1..], cutoff);
      HeadOrTail(claims);
    }
  }

  lemma {:induction false} FreshIsTidy(claims: seq<Claim>, cutoff: int, log: seq<RequestId>)
    requires Tidy(claims, log)
    ensures Tidy(Fresh(claims, cutoff), log)
  {
    if claims != [] {
      FreshIsTidy(claims[1..], cutoff, log);
      FreshMembers(claims[1..], cutoff);
      var r := Fresh(claims[1..], cutoff);
      assert ([claims[0]] + r)[1..] == r && [] + r == r;
    }
  }

  lemma {:induction false} WithoutMembers(claims: seq<Claim>, id: RequestId)
    ensures |Without(claims, id)| <= |claims|
    ensures IsClaimed(claims, id) ==> |Without(claims, id)| < |claims|
    ensures forall c :: c in Without(claims, id) <==> c in claims && c.id != id
  {
    if claims != [] {
      WithoutMembers(claims[1..], id);
      HeadOrTail(claims);
    }
  }

  lemma {:induction false} WithoutIsTidy(claims: seq<Claim>, id: RequestId, log: seq<RequestId>)
    requires Tidy(claims, log)
    ensures Tidy(Without(claims, id), log)
  {
    if claims != [] {
      WithoutIsTidy(claims[1..], id, log);
      WithoutMembers(claims[1..], id);
      var r := Without(claims[1..], id);
      assert ([claims[0]] + r)[1..] == r && [] + r == r;
    }
  }

  lemma {:induction false} AppendIsTidy(claims: seq<Claim>, log: seq<RequestId>, c: Claim)
    requires Tidy(claims, log) && forall d <- claims :: d.id != c.id
    ensures Tidy(claims + [c], log + [c.id])
  {
    assert (log + [c.id])[..|log|] == log;
    if claims == [] {
      assert ([] + [c])[1..] == [];
    } else {
      HeadOrTail(claims);
      AppendIsTidy(claims[1..], log, c);
      assert (claims + [c])[1..] == claims[1..] + [c];
    }
  }

  lemma {:induction false} TidyIsUnique(claims: seq<Claim>, log: seq<RequestId>, c: Claim, d: Claim)
    requires Tidy(claims, log) && c in claims && d in claims && c.id == d.id
    ensures c == d
  {
    HeadOrTail(claims);
    if c in claims[1..] && d in claims[1..] {
      TidyIsUnique(claims[1..], log, c, d);
    }
  }

  lemma {:induction false} TimeOfIsRight(claims: seq<Claim>, id: RequestId)
    requires IsClaimed(claims, id)
    ensures Claim(id, TimeOf(claims, id)) in claims
  {
    if claims[0].id != id {
      assert IsClaimed(claims[1..], id);
      TimeOfIsRight(claims[1..], id);
    } else {
      assert claims[0] in claims;
    }
  }

  lemma TouchKeepsMembers(s: State, id: RequestId)
    ensures SameIds(Touch(s, id).claims, s.claims)
  {
    if IsClaimed(s.claims, id) {
      WithoutMembers(s.claims, id);
      var r := Touch(s, id).claims;
      assert r[|r| - 1] in r && r[|r| - 1].id == id;
      forall x: RequestId
        ensures IsClaimed(r, x) <==> IsClaimed(s.claims, x)
      {
        if x != id && IsClaimed(s.claims, x) {
          var c :| c in s.claims && c.id == x;
          assert c in r;
        }
      }
    }
  }

  // The filter loop at index k: what is left of both results is what the rest of the ids gives.
  ghost predicate Filtering(s: State, t: State, ids: seq<RequestId>, k: nat, available: seq<RequestId>) {
    && k <= |ids| && SameIds(t.claims, s.claims)
    && TouchAll(s, ids) == TouchAll(t, ids[k..])
    && Available(s.claims, ids) == available + Available(s.claims, ids[k..])
  }

  lemma FilterStep(s: State, t: State, ids: seq<RequestId>, k: nat, available: seq<RequestId>)
    requires Filtering(s, t, ids, k, available) && k < |ids|
    ensures Filtering(s, Touch(t, ids[k]), ids, k + 1,
                      if IsClaimed(t.claims, ids[k]) then available else available + [ids[k]])
  {
    assert ids[k..][1..] == ids[k + 1..];
    TouchKeepsMembers(t, ids[k]);
    SameIdsChain(Touch(t, ids[k]).claims, t.claims, s.claims, ids[k]);
    hide Touch, SameIds, IsClaimed;
  }

  lemma SameIdsChain(a: seq<Claim>, b: seq<Claim>, c: seq<Claim>, id: RequestId)
    requires SameIds(a, b) && SameIds(b, c)
    ensures SameIds(a, c) && (IsClaimed(b, id) <==> IsClaimed(c, id))
  {
  }

  // A touch keeps every entry, time included.
  lemma TouchKeepsInv(s: State, id: RequestId)
    requires Inv(s)
    ensures Inv(Touch(s, id)) && forall c :: c in Touch(s, id).claims <==> c in s.claims
  {
    if IsClaimed(s.claims, id) {
      var c := Claim(id, TimeOf(s.claims, id));
      TimeOfIsRight(s.claims, id);
      WithoutMembers(s.claims, id);
      WithoutIsTidy(s.claims, id, s.log);
      AppendIsTidy(Without(s.claims, id), s.log, c);
      forall d
        ensures d in Without(s.claims, id) + [c] <==> d in s.claims
      {
        if d in s.claims && d.id == id {
          TidyIsUnique(s.claims, s.log, c, d);
        }
      }
    }
  }

  lemma {:induction false} TouchAllKeepsInv(s: State, ids: seq<RequestId>)
    requires Inv(s)
    ensures Inv(TouchAll(s, ids)) && forall c :: c in TouchAll(s, ids).claims <==> c in s.claims
    decreases ids
  {
    if ids != [] {
      TouchKeepsInv(s, ids[0]);
      TouchAllKeepsInv(Touch(s, ids[0]), ids[1..]);
    }
  }

  lemma PruneKeepsInv(s: State, now: int)
    requires Inv(s)
    ensures Inv(State(Prune(s.claims, now), s.log))
    ensures forall c :: c in Prune(s.claims, now) <==> c in s.claims && now - c.at <= 300000
  {
    FreshMembers(s.claims, now - REQUEST_CLAIM_RETENTION_MS);
    FreshIsTidy(s.claims, now - REQUEST_CLAIM_RETENTION_MS, s.log);
  }

  lemma {:induction false} TidyFills(claims: seq<Claim>, log: seq<RequestId>, ids: set<RequestId>)
    requires Tidy(claims, log) && forall c <- claims :: c.id in ids
    ensures |claims| <= |ids|
    decreases claims
  {
    if claims != [] {
      HeadOrTail(claims);
      TidyFills(claims[1..], log, ids - {claims[0].id});
    }
  }

  // A tidy table that is one entry too long loses its first, and behind that stand 1024 other ids
  // that were used later.
  lemma {:induction false} NewestDropsTheFirst(claims: seq<Claim>, log: seq<RequestId>)
    requires Tidy(claims, log) && |claims| <= MAX_CLAIMED_PROMPT_REQUEST_IDS + 1
    ensures Tidy(Newest(claims), log) && |Newest(claims)| <= 1024
    ensures forall c <- claims :: c !in Newest(claims) ==> |Since(log, c.id)| >= 1024
  {
    if |claims| > MAX_CLAIMED_PROMPT_REQUEST_IDS {
      assert Newest(claims) == claims[1..];
      HeadOrTail(claims);
      TidyFills(claims[1..], log, Since(log, claims[0].id));
    }
  }

  lemma ClaimKeepsInv(s: State, id: RequestId, at: int, pruned: int)
    requires Inv(s) && !IsClaimed(s.claims, id)
    ensures var r := Remember(s, id, at); Inv(State(Prune(r.claims, pruned), r.log))
    ensures var r := Remember(s, id, at);
            forall c :: (c in s.claims || c == Claim(id, at)) && c !in Prune(r.claims, pruned) ==>
              pruned - c.at > REQUEST_CLAIM_RETENTION_MS ||
              |Since(r.log, c.id)| >= MAX_CLAIMED_PROMPT_REQUEST_IDS
  {
    var r := Remember(s, id, at);
    var cutoff := pruned - REQUEST_CLAIM_RETENTION_MS;
    WithoutMembers(s.claims, id);
    WithoutIsTidy(s.claims, id, s.log);
    AppendIsTidy(Without(s.claims, id), s.log, Claim(id, at));
    FreshMembers(r.claims, cutoff);
    FreshIsTidy(r.claims, cutoff, r.log);
    hide Tidy, Since, Newest, Without, Fresh;
    NewestDropsTheFirst(Fresh(r.claims, cutoff), r.log);
    assert forall c :: c in s.claims ==> c.id != id;
  }

  lemma {:induction false} AvailableIsUnclaimed(claims: seq<Claim>, ids: seq<RequestId>, k: nat)
    requires k < |Available(claims, ids)|
    ensures !IsClaimed(claims, Available(claims, ids)[k])
  {
    assert Available(claims, ids)[k] in Available(claims, ids);
  }

  lemma StepKeepsInv(s: State, e: Event)
    requires Inv(s)
    ensures Inv(Step(s, e))
  {
    if e.Correlate? {
      PruneKeepsInv(s, e.start);
      var pruned := State(Prune(s.claims, e.start), s.log);
      TouchAllKeepsInv(pruned, e.candidates);
      var winner := Attributed(s, e);
      if winner.Prompt? {
        AvailableIsUnclaimed(pruned.claims, e.candidates, e.choice);
        ClaimKeepsInv(TouchAll(pruned, e.candidates), winner.id, e.claimedAt, e.pruned);
      }
    }
  }

  // --- What a correlation attributes ---

  // The filter drops exactly what is claimed and keeps the candidates' order.
  lemma {:induction false} AvailableKeepsOrder(claims: seq<Claim>, x: seq<RequestId>, id: RequestId, y: seq<RequestId>)
    ensures Available(claims, x + [id] + y) ==
            Available(claims, x) + (if exists c <- claims :: c.id == id then [] else [id]) + Available(claims, y)
  {
    hide Available;
    if x == [] {
      assert x + [id] + y == [id] + y;
      AvailableCons(claims, id, y);
      AvailableOfNone(claims);
    } else {
      assert x == [x[0]] + x[1..] && x + [id] + y == [x[0]] + (x[1..] + [id] + y);
      AvailableCons(claims, x[0], x[1..] + [id] + y);
      AvailableCons(claims, x[0], x[1..]);
      AvailableKeepsOrder(claims, x[1..], id, y);
    }
  }

  lemma {:induction false} AvailableCons(claims: seq<Claim>, id: RequestId, ids: seq<RequestId>)
    ensures Available(claims, [id] + ids) == (if IsClaimed(claims, id) then [] else [id]) + Available(claims, ids)
  {
    assert ([id] + ids)[0] == id && ([id] + ids)[1..] == ids;
  }

  lemma {:induction false} AvailableOfNone(claims: seq<Claim>)
    ensures Available(claims, []) == []
  {
  }

  // A prompt can be attributed exactly if it is a candidate and was not claimed in the five minutes
  // before the correlation.
  lemma AttributableIff(s: State, e: Event, id: RequestId)
    requires Inv(s) && e.Correlate?
    ensures (exists n: nat :: Attributed(s, e.(choice := n)) == Prompt(id)) <==>
            id in e.candidates && forall c <- s.claims :: c.id == id ==> e.start - c.at > 300000
  {
    PruneKeepsInv(s, e.start);
    var claims := Prune(s.claims, e.start);
    hide Prune;
    AvailableExactly(claims, e.candidates, id);
    var available := Available(claims, e.candidates);
    if id in available {
      var n :| 0 <= n < |available| && available[n] == id;
      assert Attributed(s, e.(choice := n)) == Prompt(id);
    }
    assert IsClaimed(claims, id) <==> exists c <- s.claims :: c.id == id && e.start - c.at <= 300000;
  }

  // After a reset every candidate can be attributed again.
  lemma ResetFreesAll(s: State, e: Event, id: RequestId)
    requires e.Correlate? && id in e.candidates
    ensures exists n: nat :: Attributed(Step(s, Reset), e.(choice := n)) == Prompt(id)
  {
    AttributableIff(State([], s.log), e, id);
  }

  lemma {:induction false} AvailableExactly(claims: seq<Claim>, ids: seq<RequestId>, id: RequestId)
    ensures id in Available(claims, ids) <==> id in ids && !IsClaimed(claims, id)
  {
    if ids != [] {
      AvailableExactly(claims, ids[1..], id);
    }
    hide IsClaimed;
  }

  // What is attributed is claimed, with the time of the claim, as the most recently used.
  lemma AttributedIsClaimed(s: State, e: Event)
    requires e.Correlate? && Attributed(s, e).Prompt? && e.pruned - e.claimedAt <= 300000
    ensures var claims := Step(s, e).claims;
            claims != [] && claims[|claims| - 1] == Claim(Attributed(s, e).id, e.claimedAt)
  {
    var id := Attributed(s, e).id;
    var touched := TouchAll(State(Prune(s.claims, e.start), s.log), e.candidates);
    FreshKeepsLast(Without(touched.claims, id), Claim(id, e.claimedAt), e.pruned - 300000);
    hide Fresh, Without, TouchAll, Attributed;
  }

  lemma {:induction false} FreshKeepsLast(claims: seq<Claim>, c: Claim, cutoff: int)
    requires c.at >= cutoff
    ensures var r := Fresh(claims + [c], cutoff); r != [] && r[|r| - 1] == c
  {
    if claims != [] {
      FreshKeepsLast(claims[1..], c, cutoff);
      assert (claims + [c])[1..] == claims[1..] + [c];
    }
  }

  // Behind a used entry stand used ones only.
  ghost predicate UsedLast(claims: seq<Claim>, used: set<RequestId>) {
    claims == [] ||
    ((claims[0].id in used ==> forall c <- claims[1..] :: c.id in used) && UsedLast(claims[1..], used))
  }

  // A correlation moves the claimed candidates behind all other claims, attributed or not, so that
  // the others go first when the table is full.
  lemma CandidatesAreRecent(s: State, e: Event, i: nat, j: nat)
    requires e.Correlate? && i < j < |Step(s, e).claims| && Step(s, e).claims[i].id in e.candidates
    ensures Step(s, e).claims[j].id in e.candidates
  {
    var pruned, used := State(Prune(s.claims, e.start), s.log), IdsOf(e.candidates);
    NoneUsed(pruned.claims);
    TouchAllUses(pruned, e.candidates, {});
    assert {} + used == used;
    var touched, winner := TouchAll(pruned, e.candidates), Attributed(s, e);
    if winner.Prompt? {
      var rest := Without(touched.claims, winner.id);
      assert winner.id in e.candidates;
      WithoutUses(touched.claims, winner.id, used);
      assert used + {winner.id} == used;
      UsedLastPush(rest, Claim(winner.id, e.claimedAt), used);
      PruneUses(rest + [Claim(winner.id, e.claimedAt)], e.pruned, used);
    }
    UsedLastIsRight(Step(s, e).claims, used, i, j);
    hide UsedLast, Prune, Without, TouchAll, Available;
  }

  lemma PruneUses(claims: seq<Claim>, now: int, used: set<RequestId>)
    requires UsedLast(claims, used)
    ensures UsedLast(Prune(claims, now), used)
  {
    var kept, max := Fresh(claims, now - REQUEST_CLAIM_RETENTION_MS), MAX_CLAIMED_PROMPT_REQUEST_IDS;
    FreshUses(claims, now - REQUEST_CLAIM_RETENTION_MS, used);
    if |kept| > max {
      UsedLastBehind(kept, |kept| - max, used);
    }
    hide Fresh, UsedLast;
  }

  lemma {:induction false} FreshUses(claims: seq<Claim>, cutoff: int, used: set<RequestId>)
    requires UsedLast(claims, used)
    ensures UsedLast(Fresh(claims, cutoff), used)
  {
    if claims != [] {
      FreshUses(claims[1..], cutoff, used);
      FreshMembers(claims[1..], cutoff);
      var r := Fresh(claims[1..], cutoff);
      assert ([claims[0]] + r)[1..] == r && [] + r == r;
    }
  }

  lemma {:induction false} UsedLastBehind(claims: seq<Claim>, k: nat, used: set<RequestId>)
    requires UsedLast(claims, used) && k <= |claims|
    ensures UsedLast(claims[k..], used)
  {
    if k == 0 {
      assert claims[0..] == claims;
    } else {
      UsedLastBehind(claims[1..], k - 1, used);
      assert claims[1..][k - 1..] == claims[k..];
    }
  }

  lemma {:induction false} NoneUsed(claims: seq<Claim>)
    ensures UsedLast(claims, {})
  {
    if claims != [] {
      NoneUsed(claims[1..]);
    }
  }

  lemma {:induction false} UsedLastIsRight(claims: seq<Claim>, used: set<RequestId>, i: nat, j: nat)
    requires UsedLast(claims, used) && i < j < |claims| && claims[i].id in used
    ensures claims[j].id in used
  {
    if i > 0 {
      UsedLastIsRight(claims[1..], used, i - 1, j - 1);
    } else {
      assert claims[j] == claims[1..][j - 1];
    }
  }

  lemma {:induction false} TouchAllUses(s: State, ids: seq<RequestId>, used: set<RequestId>)
    requires UsedLast(s.claims, used)
    ensures UsedLast(TouchAll(s, ids).claims, used + IdsOf(ids))
    decreases ids
  {
    if ids == [] {
      assert used + IdsOf(ids) == used;
    } else {
      TouchUses(s, ids[0], used);
      TouchAllUses(Touch(s, ids[0]), ids[1..], used + {ids[0]});
      IdsOfCons(ids);
      assert used + {ids[0]} + IdsOf(ids[1..]) == used + IdsOf(ids);
    }
    hide Touch, UsedLast;
  }

  ghost function IdsOf(ids: seq<RequestId>): set<RequestId> {
    set id <- ids :: id
  }

  lemma IdsOfCons(ids: seq<RequestId>)
    requires ids != []
    ensures IdsOf(ids) == {ids[0]} + IdsOf(ids[1..])
  {
    forall id
      ensures id in IdsOf(ids) <==> id in {ids[0]} + IdsOf(ids[1..])
    {
      assert id in ids <==> id == ids[0] || id in ids[1..];
      assert id in IdsOf(ids) <==> id in ids;
      assert id in IdsOf(ids[1..]) <==> id in ids[1..];
    }
  }

  lemma {:induction false} TouchUses(s: State, id: RequestId, used: set<RequestId>)
    requires UsedLast(s.claims, used)
    ensures UsedLast(Touch(s, id).claims, used + {id})
  {
    WithoutUses(s.claims, id, used);
    if IsClaimed(s.claims, id) {
      UsedLastPush(Without(s.claims, id), Claim(id, TimeOf(s.claims, id)), used + {id});
    } else {
      WithoutAbsent(s.claims, id);
    }
  }

  lemma {:induction false} WithoutAbsent(claims: seq<Claim>, id: RequestId)
    requires !IsClaimed(claims, id)
    ensures Without(claims, id) == claims
  {
    if claims != [] {
      HeadOrTail(claims);
      WithoutAbsent(claims[1..], id);
    }
  }

  lemma {:induction false} WithoutUses(claims: seq<Claim>, id: RequestId, used: set<RequestId>)
    requires UsedLast(claims, used)
    ensures UsedLast(Without(claims, id), used + {id})
  {
    if claims != [] {
      WithoutUses(claims[1..], id, used);
      WithoutMembers(claims[1..], id);
      var r := Without(claims[1..], id);
      assert ([claims[0]] + r)[1..] == r && [] + r == r;
    }
  }

  lemma {:induction false} UsedLastPush(claims: seq<Claim>, c: Claim, used: set<RequestId>)
    requires UsedLast(claims, used) && c.id in used
    ensures UsedLast(claims + [c], used)
  {
    if claims == [] {
      assert ([] + [c])[1..] == [];
    } else {
      UsedLastPush(claims[1..], c, used);
      assert (claims + [c])[1..] == claims[1..] + [c];
    }
  }

  // --- Safety over whole runs ---

  // Reasons for an id that was claimed at `at` to be free again after e.
  ghost predicate Excuses(s: State, e: Event, id: RequestId, at: int) {
    || (e.Correlate? && e.start - at > 300000)
    || (e.Correlate? && e.pruned - at > 300000)
    || |Since(Step(s, e).log, id)| >= 1024
  }

  ghost predicate RunExcuses(s: State, events: seq<Event>, id: RequestId, at: int)
    decreases events
  {
    events != [] && (Excuses(s, events[0], id, at) || RunExcuses(Step(s, events[0]), events[1..], id, at))
  }

  // A claimed id stays claimed and is not attributed, unless there is an excuse.
  lemma ClaimedStaysBlocked(s: State, e: Event, id: RequestId, at: int)
    requires Inv(s) && Claim(id, at) in s.claims && e.Correlate? && !Excuses(s, e, id, at)
    ensures Claim(id, at) in Step(s, e).claims && Attributed(s, e) != Prompt(id)
  {
    PruneKeepsInv(s, e.start);
    var pruned := State(Prune(s.claims, e.start), s.log);
    assert IsClaimed(pruned.claims, id) by {
      assert Claim(id, at) in pruned.claims;
    }
    TouchAllKeepsInv(pruned, e.candidates);
    var winner := Attributed(s, e);
    if winner.Prompt? {
      AvailableIsUnclaimed(pruned.claims, e.candidates, e.choice);
      ClaimKeepsInv(TouchAll(pruned, e.candidates), winner.id, e.claimedAt, e.pruned);
    }
  }

  function RunFrom(s: State, events: seq<Event>): State
    decreases events
  {
    if events == [] then s else RunFrom(Step(s, events[0]), events[1..])
  }

  lemma {:induction false} BlockedThroughRun(s: State, events: seq<Event>, id: RequestId, at: int)
    requires Inv(s) && Claim(id, at) in s.claims
    requires (forall e <- events :: e.Correlate?) && !RunExcuses(s, events, id, at)
    ensures Inv(RunFrom(s, events)) && Claim(id, at) in RunFrom(s, events).claims
    decreases events
  {
    if events != [] {
      assert events[0] in events && forall e <- events[1..] :: e in events;
      ClaimedStaysBlocked(s, events[0], id, at);
      StepKeepsInv(s, events[0]);
      BlockedThroughRun(Step(s, events[0]), events[1..], id, at);
    }
  }

  lemma {:induction false} RunIsInv(events: seq<Event>)
    ensures Inv(RunFrom(State([], []), events))
  {
    RunKeepsInv(State([], []), events);
  }

  lemma {:induction false} RunKeepsInv(s: State, events: seq<Event>)
    requires Inv(s)
    ensures Inv(RunFrom(s, events))
    decreases events
  {
    if events != [] {
      StepKeepsInv(s, events[0]);
      RunKeepsInv(Step(s, events[0]), events[1..]);
    }
  }

  // After any history, if an id is attributed by `first` and, without a reset in between, again by
  // `second`, then some clock reading on the way was more than five minutes past the claim, or at
  // some point at least 1024 other ids had been used since its last use.
  lemma {:induction false} NeverAttributedTwice(history: seq<Event>, first: Event, between: seq<Event>, second: Event, id: RequestId)
    requires var s := RunFrom(State([], []), history);
             && Attributed(s, first) == Prompt(id)
             && Attributed(RunFrom(Step(s, first), between), second) == Prompt(id)
    requires forall e <- between :: e.Correlate?
    ensures var s := RunFrom(State([], []), history);
            && |s.claims| <= 1024
            && (|| first.pruned - first.claimedAt > 300000
                || RunExcuses(Step(s, first), between, id, first.claimedAt)
                || Excuses(RunFrom(Step(s, first), between), second, id, first.claimedAt))
  {
    var s := RunFrom(State([], []), history);
    RunIsInv(history);
    var pruned := State(Prune(s.claims, first.start), s.log);
    PruneKeepsInv(s, first.start);
    TouchAllKeepsInv(pruned, first.candidates);
    AvailableIsUnclaimed(pruned.claims, first.candidates, first.choice);
    ClaimKeepsInv(TouchAll(pruned, first.candidates), id, first.claimedAt, first.pruned);
    StepKeepsInv(s, first);
    if first.pruned - first.claimedAt <= REQUEST_CLAIM_RETENTION_MS && !RunExcuses(Step(s, first), between, id, first.claimedAt) {
      BlockedThroughRun(Step(s, first), between, id, first.claimedAt);
      if !Excuses(RunFrom(Step(s, first), between), second, id, first.claimedAt) {
        ClaimedStaysBlocked(RunFrom(Step(s, first), between), second, id, first.claimedAt);
      }
    }
  }
}
