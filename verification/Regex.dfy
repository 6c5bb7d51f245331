// The fragment of regular expressions that the secret patterns use: a concatenation of
// repeated character classes, optionally anchored at a word boundary. MatchAt follows the
// backtracking order of ECMAScript; Fits is the language it is measured against.
module Regex {

  datatype Option<+T> = None | Some(value: T)

  datatype Class =
    | One(c: char)
    | OneNoCase(lower: char, upper: char)
    | OneOf(chars: string)
    | Alnum                      // [A-Za-z0-9]
    | AlnumOr(others: string)    // [A-Za-z0-9...]
    | UpperDigit                 // [A-Z0-9]
    | UpperDigitSpace            // [A-Z0-9 ]
    | Space                      // \s
    | Any                        // [\s\S]

  predicate IsUpper(c: char) { 'A' <= c <= 'Z' }

  predicate IsLower(c: char) { 'a' <= c <= 'z' }

  predicate IsDigit(c: char) { '0' <= c <= '9' }

  predicate IsAlnum(c: char) { IsUpper(c) || IsLower(c) || IsDigit(c) }

  predicate IsWord(c: char) { IsAlnum(c) || c == '_' }

  // WhiteSpace and LineTerminator of ECMAScript.
  predicate IsSpace(c: char) {
    || '\t' <= c <= '\r' || c == ' ' || c == '\U{00A0}' || c == '\U{1680}'
    || '\U{2000}' <= c <= '\U{200A}' || c == '\U{2028}' || c == '\U{2029}'
    || c == '\U{202F}' || c == '\U{205F}' || c == '\U{3000}' || c == '\U{FEFF}'
  }

  predicate In(c: char, cls: Class) {
    match cls
    case One(d) => c == d
    case OneNoCase(lower, upper) => c == lower || c == upper
    case OneOf(chars) => c in chars
    case Alnum => IsAlnum(c)
    case AlnumOr(others) => IsAlnum(c) || c in others
    case UpperDigit => IsUpper(c) || IsDigit(c)
    case UpperDigitSpace => IsUpper(c) || IsDigit(c) || c == ' '
    case Space => IsSpace(c)
    case Any => true
  }

  // Times is {n}; Run is {min,}, lazy with a trailing question mark.
  datatype Atom = Times(cls: Class, n: nat) | Run(cls: Class, min: nat, lazy: bool)

  datatype Pattern = Pattern(wordStart: bool, atoms: seq<Atom>)

  function Lit(s: string): (r: seq<Atom>)
    ensures |r| == |s| && forall k :: 0 <= k < |s| ==> r[k] == Times(One(s[k]), 1)
  {
    seq(|s|, k requires 0 <= k < |s| => Times(One(s[k]), 1))
  }

  // --- The language ---

  ghost predicate AllIn(cls: Class, t: string, i: nat, j: nat) {
    i <= j <= |t| && forall k :: i <= k < j ==> In(t[k], cls)
  }

  ghost predicate Repeats(atom: Atom, t: string, i: nat, j: nat) {
    AllIn(atom.cls, t, i, j) && if atom.Times? then j - i == atom.n else j - i >= atom.min
  }

  // t[i..j] is a word of the concatenated atoms.
  ghost predicate Fits(atoms: seq<Atom>, t: string, i: nat, j: nat) {
    if atoms == [] then i == j <= |t|
    else exists k: nat :: Repeats(atoms[0], t, i, k) && Fits(atoms[1..], t, k, j)
  }

  predicate AtBoundary(t: string, i: nat)
    requires i <= |t|
  {
    (i > 0 && IsWord(t[i - 1])) != (i < |t| && IsWord(t[i]))
  }

  ghost predicate Occurs(p: Pattern, t: string, i: nat, j: nat) {
    Fits(p.atoms, t, i, j) && i <= |t| && (p.wordStart ==> AtBoundary(t, i))
  }

  ghost predicate Clean(p: Pattern, t: string) {
    forall i: nat, j: nat :: !Occurs(p, t, i, j)
  }

  // --- Facts about the language ---

  lemma {:induction false} FitsIsARange(atoms: seq<Atom>, t: string, i: nat, j: nat)
    requires Fits(atoms, t, i, j)
    ensures i <= j <= |t|
  {
    if atoms != [] {
      var k: nat :| Repeats(atoms[0], t, i, k) && Fits(atoms[1..], t, k, j);
      FitsIsARange(atoms[1..], t, k, j);
    }
  }

  // Only the characters of the range matter.
  lemma {:induction false} FitsIsLocal(atoms: seq<Atom>, s: string, i: nat, j: nat, t: string, i': nat, j': nat)
    requires i <= j <= |s| && i' <= j' <= |t| && s[i..j] == t[i'..j']
    requires Fits(atoms, s, i, j)
    ensures Fits(atoms, t, i', j')
  {
    if atoms != [] {
      var k: nat :| Repeats(atoms[0], s, i, k) && Fits(atoms[1..], s, k, j);
      FitsIsARange(atoms[1..], s, k, j);
      var k' := i' + (k - i);
      forall l | i' <= l < k'
        ensures In(t[l], atoms[0].cls)
      {
        assert t[l] == t[i'..j'][l - i'] == s[i..j][l - i'] == s[i + l - i'];
      }
      assert s[k..j] == s[i..j][k - i..] == t[i'..j'][k - i..] == t[k'..j'];
      FitsIsLocal(atoms[1..], s, k, j, t, k', j');
      assert Repeats(atoms[0], t, i', k');
    }
  }

  // Concatenating patterns concatenates their words.
  lemma {:induction false} FitsJoins(front: seq<Atom>, back: seq<Atom>, t: string, i: nat, k: nat, j: nat)
    requires Fits(front, t, i, k) && Fits(back, t, k, j)
    ensures Fits(front + back, t, i, j)
  {
    if front == [] {
      assert front + back == back;
    } else {
      assert (front + back)[1..] == front[1..] + back;
      var m: nat :| Repeats(front[0], t, i, m) && Fits(front[1..], t, m, k);
      FitsJoins(front[1..], back, t, m, k, j);
      assert Repeats((front + back)[0], t, i, m);
    }
  }

  lemma {:induction false} FitsSplits(front: seq<Atom>, back: seq<Atom>, t: string, i: nat, j: nat) returns (k: nat)
    requires Fits(front + back, t, i, j)
    ensures Fits(front, t, i, k) && Fits(back, t, k, j)
  {
    if front == [] {
      assert front + back == back;
      FitsIsARange(back, t, i, j);
      k := i;
    } else {
      assert (front + back)[1..] == front[1..] + back;
      var m: nat :| Repeats((front + back)[0], t, i, m) && Fits((front + back)[1..], t, m, j);
      k := FitsSplits(front[1..], back, t, m, j);
      assert Repeats(front[0], t, i, m);
    }
  }

  // --- The matcher ---

  // Length of the run of cls from i on.
  function RunLength(cls: Class, t: string, i: nat): (n: nat)
    requires i <= |t|
    ensures AllIn(cls, t, i, i + n)
    ensures i + n < |t| ==> !In(t[i + n], cls)
    decreases |t| - i
  {
    if i < |t| && In(t[i], cls) then 1 + RunLength(cls, t, i + 1) else 0
  }

  lemma {:induction false} RunIsLongest(cls: Class, t: string, i: nat, k: nat)
    requires AllIn(cls, t, i, k)
    ensures k <= i + RunLength(cls, t, i)
    decreases k - i
  {
    if i < k {
      RunIsLongest(cls, t, i + 1, k);
    }
  }

  // The end of the match at i that backtracking finds first.
  function MatchAt(atoms: seq<Atom>, t: string, i: nat): Option<nat>
    requires i <= |t|
    decreases |atoms|, |t| + 1
  {
    if atoms == [] then Some(i)
    else
      var n := RunLength(atoms[0].cls, t, i);
      match atoms[0]
      case Times(_, m) => if m <= n then MatchAt(atoms[1..], t, i + m) else None
      case Run(_, min, lazy) =>
        if n < min then None
        else if lazy then TryUp(atoms, t, i, min, n)
        else TryDown(atoms, t, i, min, n)
  }

  // Greedy: the longest run first.
  function TryDown(atoms: seq<Atom>, t: string, i: nat, min: nat, n: nat): Option<nat>
    requires atoms != [] && i + n <= |t| && min <= n
    decreases |atoms|, n
  {
    var r := MatchAt(atoms[1..], t, i + n);
    if r.Some? || n == min then r else TryDown(atoms, t, i, min, n - 1)
  }

  // Lazy: the shortest run first.
  function TryUp(atoms: seq<Atom>, t: string, i: nat, n: nat, max: nat): Option<nat>
    requires atoms != [] && i + max <= |t| && n <= max
    decreases |atoms|, max - n
  {
    var r := MatchAt(atoms[1..], t, i + n);
    if r.Some? || n == max then r else TryUp(atoms, t, i, n + 1, max)
  }

  // Backtracking finds a match exactly when the language has one, and what it finds is one.
  lemma {:induction false} MatchAtIsComplete(atoms: seq<Atom>, t: string, i: nat)
    requires i <= |t|
    ensures var r := MatchAt(atoms, t, i);
            if r.Some? then Fits(atoms, t, i, r.value) else forall j: nat :: !Fits(atoms, t, i, j)
    decreases |atoms|, |t| + 1
  {
    hide RunLength, TryUp, TryDown, In;
    if atoms != [] {
      var cls, n := atoms[0].cls, RunLength(atoms[0].cls, t, i);
      forall k: nat | AllIn(cls, t, i, k)
        ensures k <= i + n
      {
        RunIsLongest(cls, t, i, k);
      }
      match atoms[0]
      case Times(_, m) =>
        if m <= n {
          MatchAtIsComplete(atoms[1..], t, i + m);
          assert Repeats(atoms[0], t, i, i + m);
        }
      case Run(_, min, lazy) =>
        if n >= min {
          if lazy {
            TryUpIsComplete(atoms, t, i, min, n);
          } else {
            TryDownIsComplete(atoms, t, i, min, n);
          }
        }
    }
  }

  lemma {:induction false} TryDownIsComplete(atoms: seq<Atom>, t: string, i: nat, min: nat, n: nat)
    requires atoms != [] && atoms[0].Run? && atoms[0].min == min <= n && AllIn(atoms[0].cls, t, i, i + n)
    ensures var r := TryDown(atoms, t, i, min, n);
            if r.Some? then Fits(atoms, t, i, r.value)
            else forall k: nat, j: nat :: i + min <= k <= i + n ==> !Fits(atoms[1..], t, k, j)
    decreases |atoms|, n
  {
    MatchAtIsComplete(atoms[1..], t, i + n);
    assert Repeats(atoms[0], t, i, i + n);
    if MatchAt(atoms[1..], t, i + n).None? && n > min {
      TryDownIsComplete(atoms, t, i, min, n - 1);
    }
  }

  lemma {:induction false} TryUpIsComplete(atoms: seq<Atom>, t: string, i: nat, n: nat, max: nat)
    requires atoms != [] && atoms[0].Run? && atoms[0].min <= n <= max && AllIn(atoms[0].cls, t, i, i + max)
    ensures var r := TryUp(atoms, t, i, n, max);
            if r.Some? then Fits(atoms, t, i, r.value)
            else forall k: nat, j: nat :: i + n <= k <= i + max ==> !Fits(atoms[1..], t, k, j)
    decreases |atoms|, max - n
  {
    MatchAtIsComplete(atoms[1..], t, i + n);
    assert Repeats(atoms[0], t, i, i + n);
    if MatchAt(atoms[1..], t, i + n).None? && n < max {
      TryUpIsComplete(atoms, t, i, n + 1, max);
    }
  }

  // A run's length is the first in its order, longest first or shortest first when lazy, behind
  // which the rest of the pattern has a match; and the rest is matched as on its own.
  lemma {:induction false} RunTakesItsFirstChoice(atoms: seq<Atom>, t: string, i: nat) returns (k: nat)
    requires i <= |t| && atoms != [] && atoms[0].Run? && MatchAt(atoms, t, i).Some?
    ensures k <= |t| && Repeats(atoms[0], t, i, k) && MatchAt(atoms[1..], t, k) == MatchAt(atoms, t, i)
    ensures forall l: nat, j: nat ::
              Repeats(atoms[0], t, i, l) && (if atoms[0].lazy then l < k else k < l) ==> !Fits(atoms[1..], t, l, j)
  {
    var n := RunLength(atoms[0].cls, t, i);
    forall l: nat | AllIn(atoms[0].cls, t, i, l)
      ensures l <= i + n
    {
      RunIsLongest(atoms[0].cls, t, i, l);
    }
    if atoms[0].lazy {
      k := FirstUp(atoms, t, i, atoms[0].min, n);
    } else {
      k := FirstDown(atoms, t, i, atoms[0].min, n);
    }
  }

  lemma {:induction false} FirstUp(atoms: seq<Atom>, t: string, i: nat, n: nat, max: nat) returns (k: nat)
    requires atoms != [] && i + max <= |t| && n <= max && TryUp(atoms, t, i, n, max).Some?
    ensures i + n <= k <= i + max && MatchAt(atoms[1..], t, k) == TryUp(atoms, t, i, n, max)
    ensures forall l: nat, j: nat :: i + n <= l < k ==> !Fits(atoms[1..], t, l, j)
    decreases max - n
  {
    MatchAtIsComplete(atoms[1..], t, i + n);
    if MatchAt(atoms[1..], t, i + n).Some? {
      k := i + n;
    } else {
      k := FirstUp(atoms, t, i, n + 1, max);
    }
  }

  lemma {:induction false} FirstDown(atoms: seq<Atom>, t: string, i: nat, min: nat, n: nat) returns (k: nat)
    requires atoms != [] && i + n <= |t| && min <= n && TryDown(atoms, t, i, min, n).Some?
    ensures i + min <= k <= i + n && MatchAt(atoms[1..], t, k) == TryDown(atoms, t, i, min, n)
    ensures forall l: nat, j: nat :: k < l <= i + n ==> !Fits(atoms[1..], t, l, j)
    decreases n
  {
    MatchAtIsComplete(atoms[1..], t, i + n);
    if MatchAt(atoms[1..], t, i + n).Some? {
      k := i + n;
    } else {
      k := FirstDown(atoms, t, i, min, n - 1);
    }
  }

  // --- Leftmost search and global replacement ---

  datatype Found = Nothing | Found(start: nat, end: nat)

  function Find(p: Pattern, t: string, from: nat): Found
    requires from <= |t|
    decreases |t| - from
  {
    var r := MatchAt(p.atoms, t, from);
    if r.Some? && (!p.wordStart || AtBoundary(t, from)) then Found(from, r.value)
    else if from == |t| then Nothing
    else Find(p, t, from + 1)
  }

  lemma {:induction false} FindIsLeftmost(p: Pattern, t: string, from: nat)
    requires from <= |t|
    ensures var f := Find(p, t, from);
            && (f.Found? ==> from <= f.start && Occurs(p, t, f.start, f.end) && MatchAt(p.atoms, t, f.start) == Some(f.end))
            && (forall i: nat, j: nat :: from <= i && (f.Found? ==> i < f.start) ==> !Occurs(p, t, i, j))
    decreases |t| - from
  {
    MatchAtIsComplete(p.atoms, t, from);
    var r := MatchAt(p.atoms, t, from);
    if from < |t| && !(r.Some? && (!p.wordStart || AtBoundary(t, from))) {
      FindIsLeftmost(p, t, from + 1);
    }
  }

  // Some atom always takes a character, so no match is empty.
  predicate Consumes(p: Pattern) {
    exists k :: 0 <= k < |p.atoms| && Takes(p.atoms[k])
  }

  predicate Takes(atom: Atom) {
    if atom.Times? then atom.n > 0 else atom.min > 0
  }

  // A taking atom leaves one of its characters in the range.
  lemma {:induction false} FitsHits(atoms: seq<Atom>, t: string, i: nat, j: nat, m: nat) returns (k: nat)
    requires Fits(atoms, t, i, j) && m < |atoms| && Takes(atoms[m])
    ensures i <= k < j <= |t| && In(t[k], atoms[m].cls)
  {
    var e: nat :| Repeats(atoms[0], t, i, e) && Fits(atoms[1..], t, e, j);
    FitsIsARange(atoms[1..], t, e, j);
    if m == 0 {
      k := i;
    } else {
      k := FitsHits(atoms[1..], t, e, j, m - 1);
    }
  }

  lemma {:induction false} FoundIsNonEmpty(p: Pattern, t: string, from: nat)
    requires from <= |t| && Consumes(p)
    ensures var f := Find(p, t, from); f.Found? ==> from <= f.start < f.end <= |t|
  {
    FindIsLeftmost(p, t, from);
    var f := Find(p, t, from);
    if f.Found? {
      var m :| 0 <= m < |p.atoms| && Takes(p.atoms[m]);
      var k := FitsHits(p.atoms, t, f.start, f.end, m);
    }
  }

  datatype Replaced = Replaced(text: string, count: nat)

  // String.prototype.replace with a global pattern, from position `from` on.
  function ReplaceFrom(p: Pattern, token: string, t: string, from: nat): Replaced
    requires from <= |t| && Consumes(p)
    decreases |t| - from
  {
    var f := Find(p, t, from);
    if f.Nothing? then Replaced(t[from..], 0)
    else
      FoundIsNonEmpty(p, t, from);
      var rest := ReplaceFrom(p, token, t, f.end);
      Replaced(t[from..f.start] + token + rest.text, 1 + rest.count)
  }

  function ReplaceAll(p: Pattern, token: string, t: string): Replaced
    requires Consumes(p)
  {
    ReplaceFrom(p, token, t, 0)
  }


  // --- What a replacement changes ---

  datatype Cut = Cut(start: nat, end: nat)

  // Nonempty ranges of t, one behind the other, from position `from` on.
  ghost predicate Cuts(t: string, from: nat, cuts: seq<Cut>)
    decreases cuts
  {
    if cuts == [] then from <= |t|
    else from <= cuts[0].start < cuts[0].end <= |t| && Cuts(t, cuts[0].end, cuts[1..])
  }

  // t from position `from` on, with the token in place of every range.
  function Rebuilt(t: string, from: nat, cuts: seq<Cut>, token: string): string
    requires Cuts(t, from, cuts)
    decreases cuts
  {
    if cuts == [] then t[from..]
    else t[from..cuts[0].start] + token + Rebuilt(t, cuts[0].end, cuts[1..], token)
  }

  // x lies in one of the ranges.
  ghost predicate Covered(x: nat, cuts: seq<Cut>) {
    exists k :: 0 <= k < |cuts| && cuts[k].start <= x < cuts[k].end
  }

  ghost predicate AllMatch(p: Pattern, t: string, cuts: seq<Cut>) {
    forall k :: 0 <= k < |cuts| ==> Occurs(p, t, cuts[k].start, cuts[k].end)
  }

  ghost predicate NoneMissed(p: Pattern, t: string, from: nat, cuts: seq<Cut>) {
    forall x: nat, y: nat :: from <= x && Occurs(p, t, x, y) ==> Covered(x, cuts)
  }

  // A replacement puts the token in place of matches and touches nothing else; every place where a
  // match starts is among what it replaces, and it counts the replacements.
  lemma {:induction false} ReplaceIsRebuilt(p: Pattern, token: string, t: string, from: nat) returns (cuts: seq<Cut>)
    requires from <= |t| && Consumes(p)
    ensures Cuts(t, from, cuts) && AllMatch(p, t, cuts) && NoneMissed(p, t, from, cuts)
    ensures ReplaceFrom(p, token, t, from) == Replaced(Rebuilt(t, from, cuts, token), |cuts|)
    decreases |t| - from
  {
    var f := Find(p, t, from);
    FindIsLeftmost(p, t, from);
    hide Occurs, Find;
    if f.Nothing? {
      cuts := [];
    } else {
      FoundIsNonEmpty(p, t, from);
      var rest := ReplaceIsRebuilt(p, token, t, f.end);
      cuts := [Cut(f.start, f.end)] + rest;
      assert cuts[1..] == rest;
      NoneMissedCons(p, t, from, Cut(f.start, f.end), rest);
      hide NoneMissed, Consumes;
    }
  }

  lemma NoneMissedCons(p: Pattern, t: string, from: nat, cut: Cut, rest: seq<Cut>)
    requires NoneMissed(p, t, cut.end, rest)
    requires forall x: nat, y: nat :: from <= x < cut.start ==> !Occurs(p, t, x, y)
    ensures NoneMissed(p, t, from, [cut] + rest)
  {
    hide Occurs;
    var cuts := [cut] + rest;
    forall x: nat, y: nat | from <= x && Occurs(p, t, x, y)
      ensures Covered(x, cuts)
    {
      if x < cut.end {
        assert cuts[0].start <= x < cuts[0].end;
      } else {
        var k :| 0 <= k < |rest| && rest[k].start <= x < rest[k].end;
        assert cuts[k + 1] == rest[k];
      }
    }
  }
}
