// Choosing the prompt for an insertion: candidates are ranked by a baseline comparator and, when
// timing alone is ambiguous, by content similarity, scored until one is nearly perfect.
module WinnerSelection {
  import opened StableSort
  import Levenshtein

  const AMBIGUOUS_TIMING_DELTA_MS := 500

  datatype CaptureStatus = Full | Hook | MetadataOnly | TunnelOnly

  datatype Score = NoScore | Score(value: real)

  datatype Candidate = Candidate(
    id: nat,
    timingDifferenceMs: nat,
    fileContextMatched: bool,
    responseTimestampMs: int,
    captureStatus: CaptureStatus,
    responseBody: string,
    contentScore: Score,
    qualified: bool)

  // What the scoring depends on: the text normalization, the inserted code and the threshold.
  datatype Query = Query(normalize: string -> string, insertedCode: string, threshold: real)

  // --- The comparators ---

  function CaptureStatusPriority(status: CaptureStatus): real {
    match status
    case Full => 3.0
    case Hook => 2.5
    case MetadataOnly => 2.0
    case TunnelOnly => 1.0
  }

  function CompareBaseline(left: Candidate, right: Candidate): real {
    var (l, r) := (CaptureStatusPriority(left.captureStatus), CaptureStatusPriority(right.captureStatus));
    if left.fileContextMatched != right.fileContextMatched then (if left.fileContextMatched then -1.0 else 1.0)
    else if l != r then r - l
    else if left.timingDifferenceMs != right.timingDifferenceMs
    then (left.timingDifferenceMs - right.timingDifferenceMs) as real
    else (right.responseTimestampMs - left.responseTimestampMs) as real
  }

  // A missing score counts as 0.
  function ScoreValue(c: Candidate): real {
    if c.contentScore.NoScore? then 0.0 else c.contentScore.value
  }

  function CompareContent(left: Candidate, right: Candidate): real {
    if left.qualified != right.qualified then (if left.qualified then -1.0 else 1.0)
    else if ScoreValue(left) != ScoreValue(right) then ScoreValue(right) - ScoreValue(left)
    else CompareBaseline(left, right)
  }

  // What the comparators mean, criterion by criterion: a file match, then the better capture, then
  // the smaller distance in time, then the later response; content puts the qualified ones and then
  // the better score in front of all that.
  lemma ComparatorsAreLexicographic(l: Candidate, r: Candidate)
    ensures l.fileContextMatched && !r.fileContextMatched ==> CompareBaseline(l, r) < 0.0
    ensures l.fileContextMatched == r.fileContextMatched && Better(l.captureStatus, r.captureStatus) ==>
              CompareBaseline(l, r) < 0.0
    ensures l.fileContextMatched == r.fileContextMatched && l.captureStatus == r.captureStatus ==>
              (l.timingDifferenceMs < r.timingDifferenceMs ==> CompareBaseline(l, r) < 0.0) &&
              (l.timingDifferenceMs == r.timingDifferenceMs ==>
                 (CompareBaseline(l, r) < 0.0 <==> l.responseTimestampMs > r.responseTimestampMs))
    ensures l.qualified && !r.qualified ==> CompareContent(l, r) < 0.0
    ensures l.qualified == r.qualified && ScoreValue(l) > ScoreValue(r) ==> CompareContent(l, r) < 0.0
    ensures l.qualified == r.qualified && ScoreValue(l) == ScoreValue(r) ==>
              (CompareContent(l, r) < 0.0 <==> CompareBaseline(l, r) < 0.0)
  {
  }

  predicate Better(s: CaptureStatus, t: CaptureStatus) {
    || (s.Full? && !t.Full?)
    || (s.Hook? && (t.MetadataOnly? || t.TunnelOnly?))
    || (s.MetadataOnly? && t.TunnelOnly?)
  }

  predicate Baseline(left: Candidate, right: Candidate) { CompareBaseline(left, right) <= 0.0 }

  predicate Content(left: Candidate, right: Candidate) { CompareContent(left, right) <= 0.0 }

  predicate Timing(left: Candidate, right: Candidate) { left.timingDifferenceMs <= right.timingDifferenceMs }

  // Both comparators are consistent: swapping the operands flips the sign.
  lemma ComparatorsFlip(left: Candidate, right: Candidate)
    ensures CompareBaseline(left, right) == -CompareBaseline(right, left)
    ensures CompareContent(left, right) == -CompareContent(right, left)
  {
  }

  lemma BaselineIsTransitive(x: Candidate, y: Candidate, z: Candidate)
    requires Baseline(x, y) && Baseline(y, z)
    ensures Baseline(x, z)
  {
  }

  lemma ContentIsTransitive(x: Candidate, y: Candidate, z: Candidate)
    requires Content(x, y) && Content(y, z)
    ensures Content(x, z)
  {
    hide CompareBaseline;
    if Baseline(x, y) && Baseline(y, z) {
      BaselineIsTransitive(x, y, z);
    }
  }

  lemma ComparatorsArePreorders()
    ensures TotalPreorder(Baseline) && TotalPreorder(Content) && TotalPreorder(Timing)
  {
    forall x: Candidate, y: Candidate
      ensures (Baseline(x, y) || Baseline(y, x)) && (Content(x, y) || Content(y, x))
    {
      ComparatorsFlip(x, y);
    }
    forall x: Candidate, y: Candidate, z: Candidate | Baseline(x, y) && Baseline(y, z)
      ensures Baseline(x, z)
    {
      BaselineIsTransitive(x, y, z);
    }
    forall x: Candidate, y: Candidate, z: Candidate | Content(x, y) && Content(y, z)
      ensures Content(x, z)
    {
      ContentIsTransitive(x, y, z);
    }
  }

  // --- Scoring with an early break ---

  function ContentScore(q: Query, body: string): real {
    Levenshtein.ToFixed4(Levenshtein.Similarity(q.normalize(body), q.normalize(q.insertedCode)))
  }

  function Scored(q: Query, c: Candidate): Candidate {
    var score := ContentScore(q, c.responseBody);
    c.(contentScore := Score(score), qualified := score >= q.threshold)
  }

  predicate Decisive(c: Candidate) {
    c.qualified && c.contentScore.Score? && c.contentScore.value >= 0.95
  }

  // How many candidates get a score, counting from k: up to and including the first decisive one.
  function Stop(q: Query, cs: seq<Candidate>, k: nat): nat
    requires k <= |cs|
    decreases |cs| - k
  {
    if k == |cs| then k else if Decisive(Scored(q, cs[k])) then k + 1 else Stop(q, cs, k + 1)
  }

  // The score alone ends the search: it reaches 0.95 and the threshold.
  ghost predicate Ends(q: Query, c: Candidate) {
    ContentScore(q, c.responseBody) >= 0.95 && ContentScore(q, c.responseBody) >= q.threshold
  }

  // Scoring stops at the end or right behind the first candidate that ends the search.
  lemma {:induction false} StopIsFirstDecisive(q: Query, cs: seq<Candidate>, k: nat)
    requires k <= |cs|
    ensures var n := Stop(q, cs, k);
            && k <= n <= |cs|
            && (n < |cs| ==> n > k && Ends(q, cs[n - 1]))
            && forall l :: k <= l < n - 1 ==> !Ends(q, cs[l])
    decreases |cs| - k
  {
    hide ContentScore;
    assert k < |cs| ==> (Decisive(Scored(q, cs[k])) <==> Ends(q, cs[k]));
    hide Decisive, Scored, Ends;
    if k < |cs| && !Decisive(Scored(q, cs[k])) {
      StopIsFirstDecisive(q, cs, k + 1);
    }
  }

  function ScoreAll(q: Query, cs: seq<Candidate>): (r: seq<Candidate>)
    ensures |r| == |cs|
  {
    var n := Stop(q, cs, 0);
    seq(|cs|, k requires 0 <= k < |cs| => if k < n then Scored(q, cs[k]) else cs[k])
  }

  predicate HasQualified(cs: seq<Candidate>) {
    exists c <- cs :: c.qualified
  }

  method SortInPlace(a: array<Candidate>, le: (Candidate, Candidate) -> bool)
    modifies a
    ensures a[..] == Sort(le, old(a[..]))
  {
    var s := Sort(le, a[..]);
    forall k | 0 <= k < a.Length {
      a[k] := s[k];
    }
  }

  method ScoreCandidates(candidates: array<Candidate>, q: Query)
    modifies candidates
    ensures candidates[..] == ScoreAll(q, old(candidates[..]))
  {
    hide ContentScore;
    ghost var before := candidates[..];
    var k := 0;
    while k < candidates.Length
      invariant 0 <= k <= candidates.Length && Stop(q, before, k) == Stop(q, before, 0)
      invariant forall l :: 0 <= l < candidates.Length ==>
                  candidates[l] == if l < k then Scored(q, before[l]) else before[l]
    {
      var score := ScoreBody(q, candidates[k].responseBody);
      candidates[k] := candidates[k].(contentScore := Score(score), qualified := score >= q.threshold);
      if candidates[k].qualified && score >= 0.95 {
        return;
      }
      k := k + 1;
    }
  }

  method ResolveByContentSimilarity(candidates: array<Candidate>, q: Query) returns (resolved: bool)
    modifies candidates
    ensures var scored := ScoreAll(q, old(candidates[..]));
            && resolved == HasQualified(scored)
            && candidates[..] == if resolved then Sort(Content, scored) else scored
  {
    hide ScoreAll;
    ScoreCandidates(candidates, q);
    resolved := exists c <- candidates[..] :: c.qualified;
    if resolved {
      SortInPlace(candidates, Content);
    }
  }

  method ScoreBody(q: Query, body: string) returns (score: real)
    ensures score == ContentScore(q, body)
  {
    score := Levenshtein.CalculateLevenshteinSimilarity(q.normalize, body, q.insertedCode);
  }

  // --- The selection ---

  function NearBest(cs: seq<Candidate>, limit: int): nat {
    if cs == [] then 0 else (if cs[0].timingDifferenceMs <= limit then 1 else 0) + NearBest(cs[1..], limit)
  }

  predicate TimingIsAmbiguous(cs: seq<Candidate>) {
    |cs| >= 2 && NearBest(cs, Sort(Timing, cs)[0].timingDifferenceMs + AMBIGUOUS_TIMING_DELTA_MS) > 1
  }

  // The ranked candidates, and whether content decided.
  method SelectWinner(candidates: array<Candidate>, q: Query, codeIsBlank: bool)
    returns (winner: Candidate, resolved: bool)
    requires candidates.Length > 0
    modifies candidates
    ensures winner == Winner(old(candidates[..]), q, codeIsBlank)
    ensures resolved == ContentResolves(old(candidates[..]), q, codeIsBlank)
  {
    hide ScoreAll;
    SortInPlace(candidates, Baseline);
    var applied := TimingIsAmbiguous(candidates[..]) && !codeIsBlank;
    resolved := false;
    if applied {
      resolved := ResolveByContentSimilarity(candidates, q);
    }
    winner := candidates[0];
    assert winner == candidates[..][0];
  }

  predicate ContentResolves(cs: seq<Candidate>, q: Query, codeIsBlank: bool)
    requires cs != []
  {
    var ranked := Sort(Baseline, cs);
    TimingIsAmbiguous(ranked) && !codeIsBlank && HasQualified(ScoreAll(q, ranked))
  }

  function Winner(cs: seq<Candidate>, q: Query, codeIsBlank: bool): Candidate
    requires cs != []
  {
    var ranked := Sort(Baseline, cs);
    if ContentResolves(cs, q, codeIsBlank) then Sort(Content, ScoreAll(q, ranked))[0]
    else if TimingIsAmbiguous(ranked) && !codeIsBlank then ScoreAll(q, ranked)[0]
    else ranked[0]
  }

  // --- Soundness of the choice ---

  lemma {:induction false} SortedHeadIsLeast(le: (Candidate, Candidate) -> bool, cs: seq<Candidate>)
    requires TotalPreorder(le) && cs != []
    ensures Sort(le, cs)[0] in cs && forall c <- cs :: le(Sort(le, cs)[0], c)
  {
    var s := Sort(le, cs);
    SortIsOrdered(le, cs);
    SameMembers(s, cs, s[0]);
    forall c | c in cs
      ensures le(s[0], c)
    {
      SameMembers(s, cs, c);
      var k :| 0 <= k < |s| && s[k] == c;
    }
  }

  // r does not beat l by file match, else by capture status, else by distance in time, else by the
  // later response.
  predicate NotBehind(l: Candidate, r: Candidate) {
    && (r.fileContextMatched ==> l.fileContextMatched)
    && (l.fileContextMatched == r.fileContextMatched ==>
          && !Better(r.captureStatus, l.captureStatus)
          && (l.captureStatus == r.captureStatus ==>
                && l.timingDifferenceMs <= r.timingDifferenceMs
                && (l.timingDifferenceMs == r.timingDifferenceMs ==> l.responseTimestampMs >= r.responseTimestampMs)))
  }

  lemma BaselineIsNotBehind(l: Candidate, r: Candidate)
    ensures Baseline(l, r) <==> NotBehind(l, r)
  {
  }

  // The ranking puts no candidate behind one that it beats in this order of criteria.
  lemma {:induction false} RankingIsLexicographic(cs: seq<Candidate>, i: nat, j: nat)
    requires i < j < |cs|
    ensures NotBehind(Sort(Baseline, cs)[i], Sort(Baseline, cs)[j])
  {
    hide *;
    ComparatorsArePreorders();
    SortIsOrdered(Baseline, cs);
    OrderedPair(Baseline, Sort(Baseline, cs), i, j);
    BaselineIsNotBehind(Sort(Baseline, cs)[i], Sort(Baseline, cs)[j]);
  }

  lemma OrderedPair(le: (Candidate, Candidate) -> bool, s: seq<Candidate>, i: nat, j: nat)
    requires Ordered(le, s) && i < j < |s|
    ensures le(s[i], s[j])
  {
  }

  // The candidates as they come from collection: not scored yet.
  ghost predicate Unscored(cs: seq<Candidate>) {
    forall c <- cs :: c.contentScore.NoScore? && !c.qualified
  }

  // Content decides: the winner reaches the threshold, no candidate that was scored did better,
  // and it is the least by the content comparator.
  lemma {:induction false} ResolvedWinnerIsSound(cs: seq<Candidate>, q: Query, codeIsBlank: bool)
    requires cs != [] && Unscored(cs) && ContentResolves(cs, q, codeIsBlank)
    ensures var winner := Winner(cs, q, codeIsBlank);
            var scored := ScoreAll(q, Sort(Baseline, cs));
            && winner in scored && (forall c <- scored :: Content(winner, c))
            && winner.contentScore == Score(ContentScore(q, winner.responseBody))
            && winner.contentScore.value >= q.threshold
            && (forall c <- scored :: c.contentScore.Score? ==> c.contentScore.value <= winner.contentScore.value)
  {
    ComparatorsArePreorders();
    RankedIsUnscored(cs);
    var ranked := Sort(Baseline, cs);
    hide ContentScore, TotalPreorder, Sort, Stop, Scored, TimingIsAmbiguous, ScoreAll;
    SortedHeadIsLeast(Content, ScoreAll(q, ranked));
    WinnerQualifies(q, ranked, Sort(Content, ScoreAll(q, ranked))[0]);
  }

  // The early break costs little: the winner is nearly perfect or scores at least what every
  // candidate would have scored, so no candidate would have scored 0.05 more.
  lemma BreakCostsLittle(cs: seq<Candidate>, q: Query, codeIsBlank: bool, c: Candidate)
    requires cs != [] && Unscored(cs) && ContentResolves(cs, q, codeIsBlank) && c in cs
    ensures var score := ScoreValue(Winner(cs, q, codeIsBlank));
            && (score >= 0.95 || score >= ContentScore(q, c.responseBody))
            && score + 0.05 >= ContentScore(q, c.responseBody)
  {
    ResolvedWinnerIsSound(cs, q, codeIsBlank);
    ContentScoreIsAFraction(q, c.responseBody);
    var ranked := Sort(Baseline, cs);
    SameMembers(ranked, cs, c);
    RankedIsUnscored(cs);
    hide ContentScore, Sort, Winner, Content, ContentResolves, TimingIsAmbiguous, CompareContent;
    BreakLeavesLittle(q, ranked, c, ScoreValue(Winner(cs, q, codeIsBlank)));
  }

  lemma ContentScoreIsAFraction(q: Query, body: string)
    ensures 0.0 <= ContentScore(q, body) <= 1.0
  {
    Levenshtein.PerfectScoreMeansSameText(q.normalize(body), q.normalize(q.insertedCode));
  }

  lemma BreakLeavesLittle(q: Query, ranked: seq<Candidate>, c: Candidate, best: real)
    requires c in ranked
    requires forall d <- ScoreAll(q, ranked) :: d.contentScore.Score? ==> d.contentScore.value <= best
    ensures best >= 0.95 || best >= ContentScore(q, c.responseBody)
  {
    hide ContentScore, Stop;
    var n, scored := Stop(q, ranked, 0), ScoreAll(q, ranked);
    StopIsFirstDecisive(q, ranked, 0);
    var k :| 0 <= k < |ranked| && ranked[k] == c;
    assert scored[if k < n then k else n - 1] in scored;
  }

  // Otherwise the winner is the least by the baseline comparator.
  lemma UnresolvedWinnerIsBaseline(cs: seq<Candidate>, q: Query, codeIsBlank: bool)
    requires cs != [] && !ContentResolves(cs, q, codeIsBlank)
    ensures forall c <- cs :: Baseline(Winner(cs, q, codeIsBlank), c)
  {
    ComparatorsArePreorders();
    var ranked := Sort(Baseline, cs);
    SortedHeadIsLeast(Baseline, cs);
    hide ContentScore, TotalPreorder, Sort;
    forall c | c in cs
      ensures Baseline(Winner(cs, q, codeIsBlank), c)
    {
      assert Baseline(ranked[0], c);
    }
  }

  lemma {:induction false} RankedIsUnscored(cs: seq<Candidate>)
    requires Unscored(cs)
    ensures Unscored(Sort(Baseline, cs))
  {
    var ranked := Sort(Baseline, cs);
    forall c | c in ranked
      ensures c.contentScore.NoScore? && !c.qualified
    {
      SameMembers(ranked, cs, c);
    }
  }

  lemma WinnerQualifies(q: Query, ranked: seq<Candidate>, winner: Candidate)
    requires Unscored(ranked) && HasQualified(ScoreAll(q, ranked))
    requires winner in ScoreAll(q, ranked) && forall c <- ScoreAll(q, ranked) :: Content(winner, c)
    ensures winner.contentScore == Score(ContentScore(q, winner.responseBody))
    ensures winner.contentScore.value >= q.threshold
    ensures forall c <- ScoreAll(q, ranked) :: c.contentScore.Score? ==> c.contentScore.value <= winner.contentScore.value
  {
    hide ContentScore, CompareBaseline, Stop;
    var n, scored := Stop(q, ranked, 0), ScoreAll(q, ranked);
    var best :| best in scored && best.qualified;
    assert Content(winner, best);
    var w :| 0 <= w < |scored| && scored[w] == winner;
    assert w < n;
    forall c | c in scored && c.contentScore.Score?
      ensures c.contentScore.value <= winner.contentScore.value
    {
      assert Content(winner, c);
      var k :| 0 <= k < |scored| && scored[k] == c;
      assert k < n && (c.qualified <==> c.contentScore.value >= q.threshold);
    }
  }

  // --- When content is consulted ---

  // No candidate is more than half a second nearer in time than this one.
  ghost predicate NearBestAt(cs: seq<Candidate>, i: nat)
    requires i < |cs|
  {
    forall k :: 0 <= k < |cs| ==> cs[i].timingDifferenceMs <= cs[k].timingDifferenceMs + 500
  }

  // Two of the candidates are.
  ghost predicate Ambiguous(cs: seq<Candidate>) {
    exists i, j :: 0 <= i < j < |cs| && NearBestAt(cs, i) && NearBestAt(cs, j)
  }

  ghost predicate Within(cs: seq<Candidate>, i: nat, limit: int)
    requires i < |cs|
  {
    cs[i].timingDifferenceMs <= limit
  }

  lemma {:induction false} NearBestCounts(cs: seq<Candidate>, limit: int)
    ensures NearBest(cs, limit) >= 1 <==> exists i :: 0 <= i < |cs| && Within(cs, i, limit)
    ensures NearBest(cs, limit) >= 2 <==> exists i, j :: 0 <= i < j < |cs| && Within(cs, i, limit) && Within(cs, j, limit)
  {
    if cs != [] {
      var rest := cs[1..];
      NearBestCounts(rest, limit);
      assert Within(cs, 0, limit) <==> cs[0].timingDifferenceMs <= limit;
      assert forall i :: 0 <= i < |rest| ==> (Within(rest, i, limit) <==> Within(cs, i + 1, limit));
      if i, j :| 0 <= i < j < |rest| && Within(rest, i, limit) && Within(rest, j, limit) {
        assert Within(cs, i + 1, limit) && Within(cs, j + 1, limit);
      }
      if i :| 0 <= i < |rest| && Within(rest, i, limit) {
        assert Within(cs, i + 1, limit);
      }
      if i, j :| 0 <= i < j < |cs| && Within(cs, i, limit) && Within(cs, j, limit) {
        assert Within(rest, j - 1, limit);
        if i > 0 {
          assert Within(rest, i - 1, limit);
        }
      }
      if i :| 0 <= i < |cs| && Within(cs, i, limit) {
        if i > 0 {
          assert Within(rest, i - 1, limit);
        }
      }
      hide Within;
    }
  }

  // The time of the nearest candidate.
  function BestTime(cs: seq<Candidate>): int
    requires cs != []
  {
    Sort(Timing, cs)[0].timingDifferenceMs
  }

  lemma BestTimeIsLeast(cs: seq<Candidate>) returns (k: nat)
    requires cs != []
    ensures k < |cs| && cs[k].timingDifferenceMs == BestTime(cs)
    ensures forall l :: 0 <= l < |cs| ==> BestTime(cs) <= cs[l].timingDifferenceMs
  {
    hide TotalPreorder, Sort;
    ComparatorsArePreorders();
    SortedHeadIsLeast(Timing, cs);
    k :| 0 <= k < |cs| && cs[k] == Sort(Timing, cs)[0];
    assert forall l :: 0 <= l < |cs| ==> cs[l] in cs && Timing(cs[k], cs[l]);
  }

  lemma {:induction false} TimingUnfolds(cs: seq<Candidate>)
    ensures TimingIsAmbiguous(cs) <==> |cs| >= 2 && NearBest(cs, BestTime(cs) + 500) >= 2
  {
    hide Sort, NearBest;
  }

  // Near the best is near every one.
  lemma NearIsWithin(cs: seq<Candidate>, i: nat)
    requires i < |cs|
    ensures NearBestAt(cs, i) <==> Within(cs, i, BestTime(cs) + 500)
  {
    hide BestTime;
    var k := BestTimeIsLeast(cs);
  }

  // The timing is ambiguous exactly if two candidates are within half a second of every one.
  lemma AmbiguousIff(cs: seq<Candidate>)
    ensures TimingIsAmbiguous(cs) <==> Ambiguous(cs)
  {
    hide NearBestAt, Within, NearBest, BestTime, TimingIsAmbiguous;
    TimingUnfolds(cs);
    if |cs| >= 2 {
      var limit := BestTime(cs) + 500;
      NearBestCounts(cs, limit);
      forall i | 0 <= i < |cs|
        ensures NearBestAt(cs, i) <==> Within(cs, i, limit)
      {
        NearIsWithin(cs, i);
      }
      if i, j :| 0 <= i < j < |cs| && Within(cs, i, limit) && Within(cs, j, limit) {
        assert NearBestAt(cs, i) && NearBestAt(cs, j);
      }
      if i, j :| 0 <= i < j < |cs| && NearBestAt(cs, i) && NearBestAt(cs, j) {
        assert Within(cs, i, limit) && Within(cs, j, limit);
      }
    }
  }

  lemma {:induction false} InsertKeepsCount(x: Candidate, s: seq<Candidate>, limit: int)
    ensures NearBest(Insert(Baseline, x, s), limit) == NearBest([x] + s, limit)
    decreases s
  {
    assert ([x] + s)[1..] == s;
    hide Baseline;
    if s != [] && !Baseline(x, s[0]) {
      InsertKeepsCount(x, s[1..], limit);
      assert ([x] + s[1..])[1..] == s[1..];
    }
  }

  lemma {:induction false} SortKeepsCount(cs: seq<Candidate>, limit: int)
    ensures NearBest(Sort(Baseline, cs), limit) == NearBest(cs, limit)
  {
    hide Baseline;
    if cs != [] {
      SortKeepsCount(cs[1..], limit);
      InsertKeepsCount(cs[0], Sort(Baseline, cs[1..]), limit);
      assert ([cs[0]] + Sort(Baseline, cs[1..]))[1..] == Sort(Baseline, cs[1..]);
    }
  }

  lemma SameBestTime(cs: seq<Candidate>, ranked: seq<Candidate>)
    requires cs != [] && multiset(cs) == multiset(ranked) && ranked != []
    ensures BestTime(cs) == BestTime(ranked)
  {
    hide BestTime;
    var k := BestTimeIsLeast(cs);
    var l := BestTimeIsLeast(ranked);
    SameMembers(cs, ranked, cs[k]);
    SameMembers(cs, ranked, ranked[l]);
    var k' :| 0 <= k' < |ranked| && ranked[k'] == cs[k];
    var l' :| 0 <= l' < |cs| && cs[l'] == ranked[l];
  }

  // Ranking the candidates first makes no difference to that.
  lemma {:induction false} RankedIsAmbiguousIff(cs: seq<Candidate>)
    ensures TimingIsAmbiguous(Sort(Baseline, cs)) <==> Ambiguous(cs)
  {
    hide *;
    AmbiguousIff(cs);
    var ranked := Sort(Baseline, cs);
    TimingUnfolds(cs);
    TimingUnfolds(ranked);
    if |cs| >= 2 {
      SameBestTime(cs, ranked);
      SortKeepsCount(cs, BestTime(cs) + 500);
    }
  }

  // Content decides exactly if two candidates are that near in time, there is code to compare, and
  // some candidate's own score reaches the threshold: the early break never hides one.
  lemma ContentDecidesIffSomeQualifies(cs: seq<Candidate>, q: Query, codeIsBlank: bool)
    requires cs != [] && Unscored(cs)
    ensures ContentResolves(cs, q, codeIsBlank) <==>
            Ambiguous(cs) && !codeIsBlank && exists c <- cs :: ContentScore(q, c.responseBody) >= q.threshold
  {
    RankedIsAmbiguousIff(cs);
    RankedIsUnscored(cs);
    hide ContentScore, Sort, TimingIsAmbiguous, Stop, Scored, ScoreAll, Ambiguous;
    var ranked := Sort(Baseline, cs);
    if c :| c in cs && ContentScore(q, c.responseBody) >= q.threshold {
      SameMembers(ranked, cs, c);
      QualifiedIsFound(q, ranked, c);
    }
    if HasQualified(ScoreAll(q, ranked)) {
      var c := FoundIsQualified(q, ranked);
      SameMembers(ranked, cs, c);
    }
  }

  // Otherwise the winner is the top of the ranking, with its own score if content was consulted.
  lemma {:induction false} UnresolvedWinnerIsOnTop(cs: seq<Candidate>, q: Query, codeIsBlank: bool)
    requires cs != [] && !ContentResolves(cs, q, codeIsBlank)
    ensures var (winner, top) := (Winner(cs, q, codeIsBlank), Sort(Baseline, cs)[0]);
            && winner.(contentScore := top.contentScore, qualified := top.qualified) == top
            && (!Ambiguous(cs) || codeIsBlank ==> winner == top)
            && (Ambiguous(cs) && !codeIsBlank ==>
                  winner.contentScore == Score(ContentScore(q, top.responseBody)) && !winner.qualified)
  {
    RankedIsAmbiguousIff(cs);
    hide ContentScore, Sort, TimingIsAmbiguous, Ambiguous, Decisive;
    if Ambiguous(cs) && !codeIsBlank {
      StopIsFirstDecisive(q, Sort(Baseline, cs), 0);
      assert Stop(q, Sort(Baseline, cs), 0) > 0;
      assert ScoreAll(q, Sort(Baseline, cs))[0] in ScoreAll(q, Sort(Baseline, cs));
    }
  }

  // The content score compares both texts after normalization: it is perfect exactly if the two
  // agree as far as they are compared, and are not blank.
  lemma PerfectContentScoreIff(q: Query, body: string)
    ensures var (b, code) := (q.normalize(body), q.normalize(q.insertedCode));
            && 0.0 <= ContentScore(q, body) <= 1.0
            && (ContentScore(q, body) == 1.0 <==>
                b != "" && code != "" && Levenshtein.Trimmed(b) == Levenshtein.Trimmed(code))
  {
    Levenshtein.PerfectScoreMeansSameText(q.normalize(body), q.normalize(q.insertedCode));
  }

  lemma QualifiedIsFound(q: Query, ranked: seq<Candidate>, c: Candidate)
    requires c in ranked && ContentScore(q, c.responseBody) >= q.threshold
    ensures HasQualified(ScoreAll(q, ranked))
  {
    hide ContentScore;
    var n, scored := Stop(q, ranked, 0), ScoreAll(q, ranked);
    StopIsFirstDecisive(q, ranked, 0);
    hide Stop;
    var k :| 0 <= k < |ranked| && ranked[k] == c;
    assert scored[if k < n then k else n - 1].qualified;
  }

  lemma FoundIsQualified(q: Query, ranked: seq<Candidate>) returns (c: Candidate)
    requires Unscored(ranked) && HasQualified(ScoreAll(q, ranked))
    ensures c in ranked && ContentScore(q, c.responseBody) >= q.threshold
  {
    hide ContentScore, Stop;
    var scored := ScoreAll(q, ranked);
    var k :| 0 <= k < |scored| && scored[k].qualified;
    c := ranked[k];
  }

  // --- Confidence ---

  function Min(x: real, y: real): real { if x < y then x else y }

  function Max(x: real, y: real): real { if x < y then y else x }

  function Multiplier(status: CaptureStatus): real {
    match status
    case Full => 1.0
    case Hook => 0.9
    case MetadataOnly => 0.78
    case TunnelOnly => 0.62
  }

  // What a content decision adds.
  function Boost(resolved: bool, score: Score, threshold: real): real {
    if resolved && score.Score? && score.value >= threshold
    then 0.1 + (score.value - threshold) / Max(0.001, 1.0 - threshold) * 0.2
    else 0.0
  }

  // computeCorrelationConfidence before its rounding to four decimals.
  function Unrounded(timing: nat, window: nat, matched: bool, boost: real, status: CaptureStatus): real {
    var ratio := if window > 0 then Min(1.0, timing as real / window as real) else 1.0;
    var base := Min(1.0, (1.0 - ratio) * 0.85 + if matched then 0.15 else 0.0);
    Min(1.0, Max(base, base + boost)) * Multiplier(status)
  }

  function Confidence(timing: nat, window: nat, matched: bool, boost: real, status: CaptureStatus): real {
    Levenshtein.ToFixed4(Unrounded(timing, window, matched, boost, status))
  }

  lemma BoostIsNotNegative(resolved: bool, score: Score, threshold: real)
    ensures Boost(resolved, score, threshold) >= 0.0
  {
    if resolved && score.Score? && score.value >= threshold {
      RatioGrows(0.0, score.value - threshold, Max(0.001, 1.0 - threshold));
    }
  }

  lemma UnroundedIsBounded(timing: nat, later: nat, window: nat, matched: bool, boost: real, status: CaptureStatus)
    requires timing <= later && boost >= 0.0
    ensures 0.0 <= Unrounded(timing, window, matched, boost, status) <= Multiplier(status)
    ensures Unrounded(later, window, matched, boost, status) <= Unrounded(timing, window, matched, boost, status)
  {
    if window > 0 {
      RatioGrows(timing as real, later as real, window as real);
    }
  }

  lemma RoundingGrows(x: real, y: real)
    requires x <= y
    ensures Levenshtein.ToFixed4(x) <= Levenshtein.ToFixed4(y)
  {
    assert (x * 10000.0 + 0.5).Floor <= (y * 10000.0 + 0.5).Floor;
  }

  lemma MultipliersAreRound(status: CaptureStatus)
    ensures Levenshtein.ToFixed4(Multiplier(status)) == Multiplier(status) <= 1.0
    ensures Levenshtein.ToFixed4(0.0) == 0.0
  {
  }

  // The confidence stays within the multiplier of the capture status, and never rises with the
  // distance in time.
  lemma ConfidenceIsBounded(timing: nat, later: nat, window: nat, matched: bool, resolved: bool, score: Score,
                            threshold: real, status: CaptureStatus)
    requires timing <= later
    ensures var boost := Boost(resolved, score, threshold);
            && 0.0 <= Confidence(timing, window, matched, boost, status) <= Multiplier(status) <= 1.0
            && Confidence(later, window, matched, boost, status) <= Confidence(timing, window, matched, boost, status)
  {
    hide Unrounded, Boost, Levenshtein.ToFixed4, Multiplier;
    var boost := Boost(resolved, score, threshold);
    BoostIsNotNegative(resolved, score, threshold);
    UnroundedIsBounded(timing, later, window, matched, boost, status);
    MultipliersAreRound(status);
    RoundingGrows(0.0, Unrounded(timing, window, matched, boost, status));
    RoundingGrows(Unrounded(timing, window, matched, boost, status), Multiplier(status));
    RoundingGrows(Unrounded(later, window, matched, boost, status), Unrounded(timing, window, matched, boost, status));
  }

  lemma RatioGrows(x: real, y: real, w: real)
    requires 0.0 <= x <= y && w > 0.0
    ensures 0.0 <= x / w <= y / w
  {
    assert y / w - x / w == (y - x) / w;
  }

  // What the weights come to: at once and at the edge of the window, with and without a file match,
  // for each capture status.
  lemma ConfidenceAtTheEnds(window: nat, late: nat, status: CaptureStatus)
    requires 0 < window <= late
    ensures var m := match status case Full => 1.0 case Hook => 0.9 case MetadataOnly => 0.78 case TunnelOnly => 0.62;
            && Unrounded(0, window, true, 0.0, status) == m
            && Unrounded(0, window, false, 0.0, status) == 0.85 * m
            && Unrounded(late, window, true, 0.0, status) == 0.15 * m
            && Unrounded(late, window, false, 0.0, status) == 0.0
            && Unrounded(late, 0, true, 0.0, status) == 0.15 * m
  {
    var ratio := late as real / window as real;
    RatioGrows(window as real, late as real, window as real);
    OwnRatio(window as real);
  }

  // In between, each step in time costs the same.
  lemma ConfidenceIsLinear(t: nat, window: nat, matched: bool)
    requires t <= window && window > 0
    ensures var at := Unrounded(t, window, matched, 0.0, Full);
            at == Unrounded(0, window, matched, 0.0, Full) - 0.85 * (t as real / window as real)
  {
    RatioGrows(t as real, window as real, window as real);
    OwnRatio(window as real);
  }

  // A content decision adds a tenth at the threshold and three tenths for a perfect score.
  lemma BoostAtTheEnds(threshold: real)
    requires threshold <= 0.999
    ensures Boost(true, Score(threshold), threshold) == 0.1 && Boost(true, Score(1.0), threshold) == 0.3
    ensures forall score: Score :: Boost(false, score, threshold) == 0.0
    ensures forall value: real :: value < threshold ==> Boost(true, Score(value), threshold) == 0.0
  {
    var d := Max(0.001, 1.0 - threshold);
    assert d == 1.0 - threshold;
    OwnRatio(d);
  }

  lemma OwnRatio(d: real)
    requires d > 0.0
    ensures d / d == 1.0 && 0.0 / d == 0.0
  {
  }
}
