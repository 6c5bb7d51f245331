// Content similarity in the correlator: a two-row Levenshtein distance whose operands
// are swapped so that the rows have the shorter length, and the score built on it.
module Levenshtein {

  const MAX_SIMILARITY_INPUT_LENGTH := 4000

  function Init<T>(s: seq<T>): seq<T>
    requires s != []
  {
    s[..|s| - 1]
  }

  function Last<T>(s: seq<T>): T
    requires s != []
  {
    s[|s| - 1]
  }

  // --- Edit scripts ---

  datatype Step = Replace(from: char, to: char) | Delete(from: char) | Insert(to: char)

  function StepCost(step: Step): nat {
    if step.Replace? && step.from == step.to then 0 else 1
  }

  function Source(script: seq<Step>): string {
    if script == [] then ""
    else Source(Init(script)) + if Last(script).Insert? then "" else [Last(script).from]
  }

  function Target(script: seq<Step>): string {
    if script == [] then ""
    else Target(Init(script)) + if Last(script).Delete? then "" else [Last(script).to]
  }

  function Cost(script: seq<Step>): nat {
    if script == [] then 0 else Cost(Init(script)) + StepCost(Last(script))
  }

  lemma {:induction false} Push(script: seq<Step>, step: Step)
    ensures Source(script + [step]) == Source(script) + if step.Insert? then "" else [step.from]
    ensures Target(script + [step]) == Target(script) + if step.Delete? then "" else [step.to]
    ensures Cost(script + [step]) == Cost(script) + StepCost(step)
  {
    assert Init(script + [step]) == script;
  }

  // --- The recursive distance ---

  function Min3(x: nat, y: nat, z: nat): nat {
    if x <= y && x <= z then x else if y <= z then y else z
  }

  // Distance between a's first i characters and b's first j.
  function Dist(a: string, i: nat, b: string, j: nat): nat
    requires i <= |a| && j <= |b|
    decreases i + j
  {
    if i == 0 then j
    else if j == 0 then i
    else Min3(Dist(a, i - 1, b, j) + 1, Dist(a, i, b, j - 1) + 1,
              Dist(a, i - 1, b, j - 1) + if a[i - 1] == b[j - 1] then 0 else 1)
  }

  // One unfolding of the definition, for proofs that hide it.
  lemma DistUnfolds(a: string, i: nat, b: string, j: nat)
    requires i <= |a| && j <= |b|
    ensures i == 0 || j == 0 ==> Dist(a, i, b, j) == i + j
    ensures i == 0 && j > 0 ==> Dist(a, i, b, j - 1) == j - 1
    ensures j == 0 && i > 0 ==> Dist(a, i - 1, b, j) == i - 1
    ensures i == 0 || j == 0 ||
            Dist(a, i, b, j) == Min3(Dist(a, i - 1, b, j) + 1, Dist(a, i, b, j - 1) + 1,
                                     Dist(a, i - 1, b, j - 1) + if a[i - 1] == b[j - 1] then 0 else 1)
  {
  }

  function Distance(a: string, b: string): nat {
    Dist(a, |a|, b, |b|)
  }

  // --- The distance is the cost of a cheapest script ---

  // script turns a's first i characters into b's first j, at that cost.
  ghost predicate Rewrites(script: seq<Step>, a: string, i: nat, b: string, j: nat, cost: nat)
    requires i <= |a| && j <= |b|
  {
    Source(script) == a[..i] && Target(script) == b[..j] && Cost(script) == cost
  }

  lemma GrowByDelete(rest: seq<Step>, a: string, i: nat, b: string, j: nat, cost: nat)
    requires 0 < i <= |a| && j <= |b| && Rewrites(rest, a, i - 1, b, j, cost)
    ensures Rewrites(rest + [Delete(a[i - 1])], a, i, b, j, cost + 1)
  {
    Push(rest, Delete(a[i - 1]));
    assert a[..i] == a[..i - 1] + [a[i - 1]];
  }

  lemma GrowByInsert(rest: seq<Step>, a: string, i: nat, b: string, j: nat, cost: nat)
    requires i <= |a| && 0 < j <= |b| && Rewrites(rest, a, i, b, j - 1, cost)
    ensures Rewrites(rest + [Insert(b[j - 1])], a, i, b, j, cost + 1)
  {
    Push(rest, Insert(b[j - 1]));
    assert b[..j] == b[..j - 1] + [b[j - 1]];
  }

  lemma GrowByReplace(rest: seq<Step>, a: string, i: nat, b: string, j: nat, cost: nat)
    requires 0 < i <= |a| && 0 < j <= |b| && Rewrites(rest, a, i - 1, b, j - 1, cost)
    ensures Rewrites(rest + [Replace(a[i - 1], b[j - 1])], a, i, b, j, cost + if a[i - 1] == b[j - 1] then 0 else 1)
  {
    Push(rest, Replace(a[i - 1], b[j - 1]));
    assert a[..i] == a[..i - 1] + [a[i - 1]] && b[..j] == b[..j - 1] + [b[j - 1]];
  }

  lemma NothingToRewrite(a: string, b: string)
    ensures Rewrites([], a, 0, b, 0, 0)
  {
  }

  // The script is built from its last step, which is the one that attains the minimum.
  lemma {:induction false} CheapestScript(a: string, i: nat, b: string, j: nat) returns (script: seq<Step>)
    requires i <= |a| && j <= |b|
    ensures Rewrites(script, a, i, b, j, Dist(a, i, b, j))
    decreases i + j
  {
    hide Rewrites, Dist;
    script := [];
    DistUnfolds(a, i, b, j);
    NothingToRewrite(a, b);
    if i + j > 0 {
      if j == 0 || (i > 0 && Dist(a, i, b, j) == Dist(a, i - 1, b, j) + 1) {
        var rest := CheapestScript(a, i - 1, b, j);
        GrowByDelete(rest, a, i, b, j, Dist(a, i - 1, b, j));
        return rest + [Delete(a[i - 1])];
      } else if i == 0 || Dist(a, i, b, j) == Dist(a, i, b, j - 1) + 1 {
        var rest := CheapestScript(a, i, b, j - 1);
        GrowByInsert(rest, a, i, b, j, Dist(a, i, b, j - 1));
        return rest + [Insert(b[j - 1])];
      } else {
        var rest := CheapestScript(a, i - 1, b, j - 1);
        GrowByReplace(rest, a, i, b, j, Dist(a, i - 1, b, j - 1));
        return rest + [Replace(a[i - 1], b[j - 1])];
      }
    }
  }

  lemma {:induction false} NoCheaperScript(a: string, i: nat, b: string, j: nat, script: seq<Step>)
    requires i <= |a| && j <= |b|
    requires Source(script) == a[..i] && Target(script) == b[..j]
    ensures Dist(a, i, b, j) <= Cost(script)
    decreases script
  {
    hide Dist;
    DistUnfolds(a, i, b, j);
    if script != [] {
      var step := Last(script);
      assert !step.Insert? ==> i > 0 && a[..i - 1] == Source(Init(script)) && a[i - 1] == step.from;
      assert !step.Delete? ==> j > 0 && b[..j - 1] == Target(Init(script)) && b[j - 1] == step.to;
      NoCheaperScript(a, if step.Insert? then i else i - 1, b, if step.Delete? then j else j - 1, Init(script));
    }
  }

  // Distance is the least cost of all scripts from a to b, and it is attained.
  lemma DistanceIsLeastCost(a: string, b: string)
    ensures exists s :: Source(s) == a && Target(s) == b && Cost(s) == Distance(a, b)
    ensures forall s :: Source(s) == a && Target(s) == b ==> Distance(a, b) <= Cost(s)
  {
    assert a[..|a|] == a && b[..|b|] == b;
    var best := CheapestScript(a, |a|, b, |b|);
    forall s | Source(s) == a && Target(s) == b
      ensures Distance(a, b) <= Cost(s)
    {
      NoCheaperScript(a, |a|, b, |b|, s);
    }
  }

  // --- The distance is a metric ---

  lemma {:induction false} DistIsSymmetric(a: string, i: nat, b: string, j: nat)
    requires i <= |a| && j <= |b|
    ensures Dist(a, i, b, j) == Dist(b, j, a, i)
    decreases i + j
  {
    hide Dist;
    DistUnfolds(a, i, b, j);
    DistUnfolds(b, j, a, i);
    if i > 0 && j > 0 {
      DistIsSymmetric(a, i - 1, b, j);
      DistIsSymmetric(a, i, b, j - 1);
      DistIsSymmetric(a, i - 1, b, j - 1);
    }
  }

  // The script that does s and then t, with the detour through the middle text removed.
  function Compose(s: seq<Step>, t: seq<Step>): seq<Step>
    requires Target(s) == Source(t)
    decreases |s| + |t|
  {
    if s != [] && Last(s).Delete? then
      Compose(Init(s), t) + [Last(s)]
    else if t != [] && Last(t).Insert? then
      Compose(s, Init(t)) + [Last(t)]
    else if s == [] || t == [] then []
    else
      assert Init(Target(s)) == Target(Init(s)) && Init(Source(t)) == Source(Init(t));
      var rest := Compose(Init(s), Init(t));
      if Last(s).Replace? && Last(t).Replace? then rest + [Replace(Last(s).from, Last(t).to)]
      else if Last(s).Replace? then rest + [Delete(Last(s).from)]
      else if Last(t).Replace? then rest + [Insert(Last(t).to)]
      else rest
  }

  lemma {:induction false} ComposeFits(s: seq<Step>, t: seq<Step>)
    requires Target(s) == Source(t)
    ensures Source(Compose(s, t)) == Source(s) && Target(Compose(s, t)) == Target(t)
    ensures Cost(Compose(s, t)) <= Cost(s) + Cost(t)
    decreases |s| + |t|
  {
    var u := Compose(s, t);
    if s != [] && Last(s).Delete? {
      ComposeFits(Init(s), t);
      Push(Compose(Init(s), t), Last(s));
    } else if t != [] && Last(t).Insert? {
      ComposeFits(s, Init(t));
      Push(Compose(s, Init(t)), Last(t));
    } else if s != [] && t != [] {
      assert Init(Target(s)) == Target(Init(s)) && Init(Source(t)) == Source(Init(t));
      assert Last(Target(s)) == Last(s).to && Last(Source(t)) == Last(t).from;
      var rest := Compose(Init(s), Init(t));
      ComposeFits(Init(s), Init(t));
      if Last(s).Replace? || Last(t).Replace? {
        Push(rest, Last(u));
        assert u == rest + [Last(u)];
      }
    }
  }

  lemma DistanceIsAMetric(a: string, b: string, c: string)
    ensures Distance(a, b) == 0 <==> a == b
    ensures Distance(a, b) == Distance(b, a)
    ensures Distance(a, c) <= Distance(a, b) + Distance(b, c)
  {
    DistIsSymmetric(a, |a|, b, |b|);
    DistIsZeroOnlyIfEqual(a, |a|, b, |b|);
    assert a[..|a|] == a && b[..|b|] == b && c[..|c|] == c;
    var s := CheapestScript(a, |a|, b, |b|);
    var t := CheapestScript(b, |b|, c, |c|);
    ComposeFits(s, t);
    NoCheaperScript(a, |a|, c, |c|, Compose(s, t));
  }

  lemma {:induction false} DistIsZeroOnlyIfEqual(a: string, i: nat, b: string, j: nat)
    requires i <= |a| && j <= |b|
    ensures Dist(a, i, b, j) == 0 <==> a[..i] == b[..j]
    decreases i + j
  {
    hide Dist;
    DistUnfolds(a, i, b, j);
    DistIsBounded(a, i, b, j);
    if i == j && i > 0 {
      DistIsZeroOnlyIfEqual(a, i - 1, b, j - 1);
      assert a[..i] == a[..i - 1] + [a[i - 1]] && b[..j] == b[..j - 1] + [b[j - 1]];
      DistIsBounded(a, i - 1, b, j);
      DistIsBounded(a, i, b, j - 1);
    }
  }

  // Between the length difference and the longer length.
  lemma {:induction false} DistIsBounded(a: string, i: nat, b: string, j: nat)
    requires i <= |a| && j <= |b|
    ensures i - j <= Dist(a, i, b, j) && j - i <= Dist(a, i, b, j)
    ensures Dist(a, i, b, j) <= if i < j then j else i
    decreases i + j
  {
    hide Dist;
    DistUnfolds(a, i, b, j);
    if i > 0 && j > 0 {
      DistIsBounded(a, i - 1, b, j);
      DistIsBounded(a, i, b, j - 1);
      DistIsBounded(a, i - 1, b, j - 1);
    }
  }

  // --- The two-row computation ---

  method ComputeLevenshteinDistance(left: string, right: string) returns (distance: nat)
    ensures distance == Distance(left, right)
  {
    DistanceIsAMetric(left, right, right);
    if left == right {
      return 0;
    }
    if |left| == 0 {
      return |right|;
    }
    if |right| == 0 {
      return |left|;
    }
    var source, target := left, right;
    if |source| > |target| {
      source, target := right, left;
    }
    var n := |source|;
    var previous := new nat[n + 1](i => 0);
    var current := new nat[n + 1](i => 0);
    var index := 0;
    while index <= n
      invariant index <= n + 1
      invariant forall k :: 0 <= k < index ==> previous[k] == Dist(source, k, target, 0)
    {
      previous[index] := index;
      index := index + 1;
    }
    var t := 1;
    while t <= |target|
      invariant 1 <= t <= |target| + 1
      invariant forall k :: 0 <= k <= n ==> previous[k] == Dist(source, k, target, t - 1)
    {
      NextRow(source, target, t, previous, current);
      t := t + 1;
    }
    distance := previous[n];
  }

  // The body of the outer loop: fill the current row, then copy it to the previous one.
  method NextRow(source: string, target: string, t: nat, previous: array<nat>, current: array<nat>)
    requires 1 <= t <= |target| && previous != current
    requires previous.Length == current.Length == |source| + 1
    requires forall k :: 0 <= k <= |source| ==> previous[k] == Dist(source, k, target, t - 1)
    modifies previous, current
    ensures forall k :: 0 <= k <= |source| ==> previous[k] == Dist(source, k, target, t)
  {
    hide Dist;
    DistUnfolds(source, 0, target, t);
    current[0] := t;
    var s := 1;
    while s <= |source|
      invariant 1 <= s <= |source| + 1
      invariant forall k :: 0 <= k <= |source| ==> previous[k] == Dist(source, k, target, t - 1)
      invariant forall k :: 0 <= k < s ==> current[k] == Dist(source, k, target, t)
    {
      var substitutionCost := if source[s - 1] == target[t - 1] then 0 else 1;
      current[s] := Min3(previous[s] + 1, current[s - 1] + 1, previous[s - 1] + substitutionCost);
      DistUnfolds(source, s, target, t);
      s := s + 1;
    }
    CopyRow(current, previous);
    forall k | 0 <= k <= |source|
      ensures previous[k] == Dist(source, k, target, t)
    {
      assert previous[k] == previous[..][k] == current[..][k];
    }
  }

  method CopyRow(current: array<nat>, previous: array<nat>)
    requires previous.Length == current.Length && previous != current
    modifies previous
    ensures previous[..] == current[..]
  {
    var k := 0;
    while k < current.Length
      invariant k <= current.Length
      invariant previous[..k] == current[..k]
    {
      previous[k] := current[k];
      k := k + 1;
    }
  }

  // --- The score ---

  // Four decimals, halves rounded up, as Number.prototype.toFixed(4) prints a
  // non-negative exact value.
  function ToFixed4(x: real): real {
    (x * 10000.0 + 0.5).Floor as real / 10000.0
  }

  function Trimmed(text: string): string {
    if |text| > MAX_SIMILARITY_INPUT_LENGTH then text[..MAX_SIMILARITY_INPUT_LENGTH] else text
  }

  function Longer(a: string, b: string): nat {
    if |a| < |b| then |b| else |a|
  }

  // The score before rounding, of two texts that are already normalized.
  function Similarity(left: string, right: string): real {
    var l, r := Trimmed(left), Trimmed(right);
    if left == "" || right == "" then 0.0
    else if left == right then 1.0
    else 1.0 - Distance(l, r) as real / Longer(l, r) as real
  }

  // The score is the share of the longer text that no edit touches, for the first 4000 characters of
  // both; a missing text scores nothing.
  lemma SimilarityIsUneditedShare(left: string, right: string)
    ensures left == "" || right == "" ==> Similarity(left, right) == 0.0
    ensures left != "" && right != "" ==>
              var l := if |left| > 4000 then left[..4000] else left;
              var r := if |right| > 4000 then right[..4000] else right;
              var longer := if |l| > |r| then |l| else |r|;
              left == right || Similarity(left, right) * longer as real == (longer - Distance(l, r)) as real
    ensures left != "" && left == right ==> Similarity(left, right) == 1.0
  {
    hide Dist;
    if left != "" && right != "" && left != right {
      var l, r := Trimmed(left), Trimmed(right);
      DistIsBounded(l, |l|, r, |r|);
      ShareOf(Distance(l, r) as real, Longer(l, r) as real);
    }
  }

  lemma ShareOf(d: real, m: real)
    requires m > 0.0
    ensures (1.0 - d / m) * m == m - d
  {
    assert d / m * m == d;
  }

  // Rounding to four decimals goes to the nearest, upwards from the middle.
  lemma RoundsToTheNearest(x: real)
    ensures ToFixed4(x) - 0.00005 <= x < ToFixed4(x) + 0.00005
    ensures (ToFixed4(x) * 10000.0).Floor as real == ToFixed4(x) * 10000.0
  {
    var n := (x * 10000.0 + 0.5).Floor;
    assert ToFixed4(x) * 10000.0 == n as real;
  }

  // The clamp to [0, 1] that the code applies never changes the score.
  lemma SimilarityIsAFraction(left: string, right: string)
    ensures 0.0 <= Similarity(left, right) <= 1.0
  {
    var l, r := Trimmed(left), Trimmed(right);
    DistIsBounded(l, |l|, r, |r|);
    if left != "" && right != "" && left != right {
      var d, m := Distance(l, r) as real, Longer(l, r) as real;
      assert 0.0 <= d / m <= 1.0 by {
        assert d <= m && m > 0.0;
        FractionBounds(d, m);
      }
    }
  }

  lemma FractionBounds(d: real, m: real)
    requires 0.0 <= d <= m && m > 0.0
    ensures 0.0 <= d / m <= 1.0
  {
  }

  method CalculateLevenshteinSimilarity(normalize: string -> string, rawModelResponse: string, insertedCode: string)
    returns (score: real)
    ensures score == ToFixed4(Similarity(normalize(rawModelResponse), normalize(insertedCode)))
  {
    var left, right := normalize(rawModelResponse), normalize(insertedCode);
    SimilarityIsAFraction(left, right);
    if |left| == 0 || |right| == 0 {
      return 0.0;
    }
    if left == right {
      return 1.0;
    }
    var leftTrimmed, rightTrimmed := Trimmed(left), Trimmed(right);
    var distance := ComputeLevenshteinDistance(leftTrimmed, rightTrimmed);
    var maxLength := if |leftTrimmed| < |rightTrimmed| then |rightTrimmed| else |leftTrimmed|;
    var similarity := 1.0 - distance as real / maxLength as real;
    score := ToFixed4(if similarity < 0.0 then 0.0 else if similarity > 1.0 then 1.0 else similarity);
  }

  // Even after rounding, a score of 1 means the compared parts are the same text,
  // because one edit in 4000 characters still costs 2.5 units of the fourth decimal.
  lemma PerfectScoreMeansSameText(left: string, right: string)
    ensures 0.0 <= ToFixed4(Similarity(left, right)) <= 1.0
    ensures ToFixed4(Similarity(left, right)) == 1.0 <==>
            left != "" && right != "" && Trimmed(left) == Trimmed(right)
  {
    SimilarityIsAFraction(left, right);
    RoundingKeeps(Similarity(left, right));
    if left != "" && right != "" && left != right {
      TextsScore(Trimmed(left), Trimmed(right));
    }
  }

  lemma TextsScore(l: string, r: string)
    requires 0 < |l| <= 4000 && 0 < |r| <= 4000
    ensures var score := 1.0 - Distance(l, r) as real / Longer(l, r) as real;
            if l == r then score == 1.0 else score <= 0.99975
  {
    DistanceIsAMetric(l, r, r);
    if l != r {
      OneEditShows(Distance(l, r) as real, Longer(l, r) as real);
    }
  }

  lemma RoundingKeeps(x: real)
    requires 0.0 <= x <= 1.0
    ensures 0.0 <= ToFixed4(x) <= 1.0
    ensures x <= 0.99975 ==> ToFixed4(x) < 1.0
    ensures x == 1.0 ==> ToFixed4(x) == 1.0
  {
    var n := (x * 10000.0 + 0.5).Floor;
    assert 0 <= n <= 10000;
    assert x <= 0.99975 ==> n <= 9998;
  }

  lemma OneEditShows(d: real, m: real)
    requires 1.0 <= d && 0.0 < m <= 4000.0
    ensures 1.0 - d / m <= 0.99975
  {
    assert d / m >= 1.0 / m by {
      assert d / m - 1.0 / m == (d - 1.0) / m;
    }
    assert (1.0 / m) * m == 1.0;
  }
}
