// Secret scrubbing for data that leaves the machine: eleven patterns, applied in order, each
// match replaced by a token. The central result is that one scrub leaves nothing to scrub.
module Secrets {
  import opened Regex

  const REDACTED := "[REDACTED]"
  const INNER := "REDACTED"

  // --- The patterns ---

  const PEM_BEGIN: seq<Atom> :=
    Lit("-----BEGIN ") + [Run(UpperDigitSpace, 0, false)] + Lit("PRIVATE KEY-----")
  const PEM_END: seq<Atom> :=
    Lit("-----END ") + [Run(UpperDigitSpace, 0, false)] + Lit("PRIVATE KEY-----")
  const PEM := Pattern(false, PEM_BEGIN + ([Run(Any, 0, true)] + PEM_END))

  const ANTHROPIC := Pattern(false, Lit("sk-ant-") + [Run(AlnumOr("_-"), 16, false)])
  const SK_KEY := Pattern(false, Lit("sk-") + [Run(AlnumOr("_-"), 16, false)])
  const GOOGLE_KEY := Pattern(false, Lit("AIza") + [Run(AlnumOr("_-"), 20, false)])
  const GOOGLE_OAUTH := Pattern(false, Lit("ya29.") + [Run(AlnumOr("_-"), 1, false)])
  const GITHUB := Pattern(false, Lit("gh") + [Times(OneOf("pousr"), 1), Times(One('_'), 1), Run(Alnum, 20, false)])
  const GITHUB_PAT := Pattern(false, Lit("github_pat_") + [Run(AlnumOr("_"), 20, false)])
  const SLACK := Pattern(false, Lit("xox") + [Times(OneOf("baprs"), 1), Times(One('-'), 1), Run(AlnumOr("-"), 10, false)])
  const AWS := Pattern(false, Lit("AKIA") + [Times(UpperDigit, 16)])
  const JWT_PART := Run(AlnumOr("_-"), 10, false)
  const JWT := Pattern(false, Lit("eyJ") + [JWT_PART, Times(One('.'), 1), JWT_PART, Times(One('.'), 1), JWT_PART])

  const BEARER_HEAD: seq<Atom> := [
    Times(OneNoCase('b', 'B'), 1), Times(OneNoCase('e', 'E'), 1), Times(OneNoCase('a', 'A'), 1),
    Times(OneNoCase('r', 'R'), 1), Times(OneNoCase('e', 'E'), 1), Times(OneNoCase('r', 'R'), 1),
    Run(Space, 1, false)]
  const BEARER_TAIL: seq<Atom> := [Run(AlnumOr("._~+/-"), 20, false), Run(One('='), 0, false)]
  const BEARER := Pattern(true, BEARER_HEAD + BEARER_TAIL)

  const SECRET_PATTERNS: seq<Pattern> :=
    [PEM, ANTHROPIC, SK_KEY, GOOGLE_KEY, GOOGLE_OAUTH, GITHUB, GITHUB_PAT, SLACK, AWS, JWT, BEARER]

  // No class of the atoms takes a bracket, and some character they need is not in the token.
  ghost predicate Sealed(atoms: seq<Atom>) {
    && (forall k :: 0 <= k < |atoms| ==> !In('[', atoms[k].cls) && !In(']', atoms[k].cls))
    && (exists k :: 0 <= k < |atoms| && Takes(atoms[k]) && OutsideToken(atoms[k].cls))
  }

  ghost predicate OutsideToken(cls: Class) {
    forall c :: c in INNER ==> !In(c, cls)
  }

  ghost predicate Plain(p: Pattern) {
    !p.wordStart && Sealed(p.atoms)
  }

  lemma SealedBy(atoms: seq<Atom>, m: nat)
    requires m < |atoms| && Takes(atoms[m]) && OutsideToken(atoms[m].cls)
    requires forall k :: 0 <= k < |atoms| ==> !In('[', atoms[k].cls) && !In(']', atoms[k].cls)
    ensures Sealed(atoms) && forall wordStart :: Consumes(Pattern(wordStart, atoms))
  {
  }

  lemma KeysAreSealed()
    ensures Plain(ANTHROPIC) && Consumes(ANTHROPIC) && Plain(SK_KEY) && Consumes(SK_KEY)
  {
    SealedBy(ANTHROPIC.atoms, 0);
    SealedBy(SK_KEY.atoms, 0);
  }

  lemma GoogleIsSealed()
    ensures Plain(GOOGLE_KEY) && Consumes(GOOGLE_KEY) && Plain(GOOGLE_OAUTH) && Consumes(GOOGLE_OAUTH)
  {
    SealedBy(GOOGLE_KEY.atoms, 1);
    SealedBy(GOOGLE_OAUTH.atoms, 0);
  }

  lemma GithubIsSealed()
    ensures Plain(GITHUB) && Consumes(GITHUB) && Plain(GITHUB_PAT) && Consumes(GITHUB_PAT)
  {
    SealedBy(GITHUB.atoms, 0);
    SealedBy(GITHUB_PAT.atoms, 0);
  }

  lemma SlackAndAwsAreSealed()
    ensures Plain(SLACK) && Consumes(SLACK) && Plain(AWS) && Consumes(AWS)
  {
    SealedBy(SLACK.atoms, 0);
    SealedBy(AWS.atoms, 1);
  }

  lemma JwtIsSealed()
    ensures Plain(JWT) && Consumes(JWT)
  {
    SealedBy(JWT.atoms, 0);
  }

  lemma BearerIsSealed()
    ensures Sealed(BEARER.atoms) && Consumes(BEARER)
  {
    SealedBy(BEARER.atoms, 0);
  }

  lemma PemConsumes()
    ensures Consumes(PEM)
  {
    assert Takes(PEM.atoms[0]);
  }

  lemma PatternsAreSealed(k: nat)
    requires k < |SECRET_PATTERNS|
    ensures var p := SECRET_PATTERNS[k];
            Consumes(p) && (1 <= k <= 9 ==> Plain(p)) && (k == 10 ==> Sealed(p.atoms))
  {
    hide Plain, Consumes, Sealed;
    KeysAreSealed();
    GoogleIsSealed();
    GithubIsSealed();
    SlackAndAwsAreSealed();
    JwtIsSealed();
    BearerIsSealed();
    PemConsumes();
  }

  lemma PemPartsAreSealed()
    ensures Sealed(PEM_BEGIN) && Sealed(PEM_END)
  {
    SealedBy(PEM_BEGIN, 0);
    SealedBy(PEM_END, 0);
  }

  // --- The scrub ---

  // The text and the number of replacements after the first k passes.
  function Passes(text: string, k: nat): Replaced
    requires k <= |SECRET_PATTERNS|
  {
    if k == 0 then Replaced(text, 0)
    else
      PatternsAreSealed(k - 1);
      var done := Passes(text, k - 1);
      var r := ReplaceAll(SECRET_PATTERNS[k - 1], REDACTED, done.text);
      Replaced(r.text, done.count + r.count)
  }

  function Scrub(text: string): Replaced {
    Passes(text, |SECRET_PATTERNS|)
  }

  lemma {:induction false} EmptyIsClean(k: nat)
    requires k <= |SECRET_PATTERNS|
    ensures Passes("", k) == Replaced("", 0)
  {
    if k > 0 {
      EmptyIsClean(k - 1);
      PatternsAreSealed(k - 1);
      FoundIsNonEmpty(SECRET_PATTERNS[k - 1], "", 0);
    }
  }

  // --- A pass never makes a match ---

  lemma {:induction false} FitsAvoids(atoms: seq<Atom>, t: string, i: nat, j: nat, c: char)
    requires Fits(atoms, t, i, j) && forall k :: 0 <= k < |atoms| ==> !In(c, atoms[k].cls)
    ensures i <= j <= |t| && c !in t[i..j]
  {
    if atoms != [] {
      var k: nat :| Repeats(atoms[0], t, i, k) && Fits(atoms[1..], t, k, j);
      FitsAvoids(atoms[1..], t, k, j, c);
      assert t[i..j] == t[i..k] + t[k..j];
      assert c !in t[i..k];
    }
  }

  // A range without brackets that holds a character foreign to the token misses the token.
  lemma RangeMissesToken(u: string, v: string, x: nat, y: nat, k: nat)
    requires var t := u + REDACTED + v;
             x <= k < y <= |t| && '[' !in t[x..y] && ']' !in t[x..y] && t[k] !in INNER
    ensures y <= |u| || |u| + |REDACTED| <= x
  {
    var t, n := u + REDACTED + v, |u| + |REDACTED|;
    forall l | x <= l < y
      ensures t[l] != '[' && t[l] != ']'
    {
      assert t[l] in t[x..y];
    }
    assert t[|u|] == '[' && t[n - 1] == ']';
    forall l | |u| < l < n - 1
      ensures t[l] in INNER
    {
      assert t[l] == INNER[l - |u| - 1];
    }
  }

  lemma SliceBehind(s: string, v: string, x: nat, y: nat)
    requires |s| <= x <= y <= |s| + |v|
    ensures (s + v)[x..y] == v[x - |s|..y - |s|]
  {
    var l, r := (s + v)[x..y], v[x - |s|..y - |s|];
    forall k | 0 <= k < y - x
      ensures l[k] == r[k]
    {
      assert l[k] == (s + v)[x + k];
    }
  }

  lemma SliceBefore(s: string, v: string, x: nat, y: nat)
    requires x <= y <= |s|
    ensures (s + v)[x..y] == s[x..y]
  {
  }

  // A sealed match in a text with a token lies wholly before or wholly behind the token.
  lemma {:induction false} SealedStaysOnOneSide(atoms: seq<Atom>, u: string, v: string, x: nat, y: nat)
    requires Sealed(atoms) && Fits(atoms, u + REDACTED + v, x, y)
    ensures x < y
    ensures (y <= |u| && Fits(atoms, u, x, y)) ||
            (|u| + |REDACTED| <= x && Fits(atoms, v, x - |u| - |REDACTED|, y - |u| - |REDACTED|))
  {
    var t, n := u + REDACTED + v, |u| + |REDACTED|;
    FitsAvoids(atoms, t, x, y, '[');
    FitsAvoids(atoms, t, x, y, ']');
    var m :| 0 <= m < |atoms| && Takes(atoms[m]) && OutsideToken(atoms[m].cls);
    var k := FitsHits(atoms, t, x, y, m);
    hide Fits, Sealed;
    RangeMissesToken(u, v, x, y, k);
    if y <= |u| {
      assert t == u + (REDACTED + v);
      SliceBefore(u, REDACTED + v, x, y);
      FitsIsLocal(atoms, t, x, y, u, x, y);
    } else {
      SliceBehind(u + REDACTED, v, x, y);
      FitsIsLocal(atoms, t, x, y, v, x - n, y - n);
    }
  }

  lemma OccursOnOneSide(p: Pattern, u: string, v: string, x: nat, y: nat)
    requires Sealed(p.atoms) && Occurs(p, u + REDACTED + v, x, y)
    ensures x < y
    ensures (y <= |u| && Occurs(p, u, x, y)) ||
            (|u| + |REDACTED| <= x && Occurs(p, v, x - |u| - |REDACTED|, y - |u| - |REDACTED|))
  {
    hide Fits, Sealed;
    SealedStaysOnOneSide(p.atoms, u, v, x, y);
    var t, n := u + REDACTED + v, |u| + |REDACTED|;
    assert t[|u|] == '[' && t[n - 1] == ']';
    if y > |u| {
      FitsIsARange(p.atoms, v, x - n, y - n);
    }
  }

  lemma CleanAroundToken(p: Pattern, u: string, v: string)
    requires Sealed(p.atoms) && Clean(p, u) && Clean(p, v)
    ensures Clean(p, u + REDACTED + v)
  {
    hide Occurs, Sealed;
    forall x: nat, y: nat
      ensures !Occurs(p, u + REDACTED + v, x, y)
    {
      if Occurs(p, u + REDACTED + v, x, y) {
        OccursOnOneSide(p, u, v, x, y);
      }
    }
  }

  lemma SliceOfSlice(t: string, a: nat, b: nat, x: nat, y: nat)
    requires a <= b <= |t| && x <= y <= b - a
    ensures t[a..b][x..y] == t[a + x..a + y]
  {
    assert |t[a..b][x..y]| == y - x == |t[a + x..a + y]|;
    forall k | 0 <= k < y - x
      ensures t[a..b][x..y][k] == t[a + x..a + y][k]
    {
      assert t[a..b][x..y][k] == t[a..b][x + k] == t[a + x + k];
    }
  }

  lemma {:induction false} FitsInPiece(atoms: seq<Atom>, t: string, a: nat, b: nat, x: nat, y: nat)
    requires a <= b <= |t| && Fits(atoms, t[a..b], x, y)
    ensures y <= b - a && Fits(atoms, t, a + x, a + y)
  {
    FitsIsARange(atoms, t[a..b], x, y);
    SliceOfSlice(t, a, b, x, y);
    FitsIsLocal(atoms, t[a..b], x, y, t, a + x, a + y);
  }

  // A match in a piece of t is a match in t, unless cutting made its word boundary.
  lemma PieceOccurs(p: Pattern, t: string, a: nat, b: nat, x: nat, y: nat)
    requires a <= b <= |t| && Occurs(p, t[a..b], x, y)
    requires p.wordStart ==> x < y && (x > 0 || a == 0 || !IsWord(t[a - 1]))
    ensures y <= b - a && Occurs(p, t, a + x, a + y)
  {
    FitsIsARange(p.atoms, t[a..b], x, y);
    FitsInPiece(p.atoms, t, a, b, x, y);
  }

  // One round of the replacement, for proofs that hide it.
  lemma {:induction false} ReplaceUnfolds(p: Pattern, t: string, from: nat)
    requires from <= |t| && Consumes(p)
    ensures var f := Find(p, t, from);
            var out := ReplaceFrom(p, REDACTED, t, from).text;
            if f.Nothing? then out == t[from..|t|]
            else from <= f.start < f.end <= |t| &&
                 out == t[from..f.start] + REDACTED + ReplaceFrom(p, REDACTED, t, f.end).text
  {
    FoundIsNonEmpty(p, t, from);
  }

  // --- Each plain pattern ---

  // Whatever p replaces, a plain pattern that has no match from `from` on gets none.
  lemma {:induction false} PassKeepsPlainClean(q: Pattern, p: Pattern, t: string, from: nat)
    requires from <= |t| && Plain(q) && Consumes(p)
    requires forall i: nat, j: nat :: from <= i ==> !Occurs(q, t, i, j)
    ensures Clean(q, ReplaceFrom(p, REDACTED, t, from).text)
    decreases |t| - from
  {
    var f := Find(p, t, from);
    FoundIsNonEmpty(p, t, from);
    CleanPiece(q, t, from, if f.Found? then f.start else |t|);
    if f.Found? {
      PassKeepsPlainClean(q, p, t, f.end);
      CleanAroundToken(q, t[from..f.start], ReplaceFrom(p, REDACTED, t, f.end).text);
    } else {
      assert t[from..] == t[from..|t|];
    }
  }

  lemma {:induction false} PassCleansPlain(p: Pattern, t: string, from: nat)
    requires from <= |t| && Plain(p) && Consumes(p)
    ensures Clean(p, ReplaceFrom(p, REDACTED, t, from).text)
    decreases |t| - from
  {
    var f := Find(p, t, from);
    FoundIsNonEmpty(p, t, from);
    FindIsLeftmost(p, t, from);
    CleanPiece(p, t, from, if f.Found? then f.start else |t|);
    if f.Found? {
      PassCleansPlain(p, t, f.end);
      CleanAroundToken(p, t[from..f.start], ReplaceFrom(p, REDACTED, t, f.end).text);
    } else {
      assert t[from..] == t[from..|t|];
    }
  }

  // No match of p starts at or behind a and before b, so t[a..b] has no match.
  lemma CleanPiece(p: Pattern, t: string, a: nat, b: nat)
    requires a <= b <= |t| && Plain(p)
    requires forall i: nat, j: nat :: a <= i && (i < b || b == |t|) ==> !Occurs(p, t, i, j)
    ensures Clean(p, t[a..b])
  {
    forall x: nat, y: nat
      ensures !Occurs(p, t[a..b], x, y)
    {
      if Occurs(p, t[a..b], x, y) {
        PieceOccurs(p, t, a, b, x, y);
        var m :| 0 <= m < |p.atoms| && Takes(p.atoms[m]) && OutsideToken(p.atoms[m].cls);
        var k := FitsHits(p.atoms, t, a + x, a + y, m);
      }
    }
  }

  // --- The Bearer pattern and its word boundary ---

  // Cutting t at a makes no word boundary in front of a bearer.
  ghost predicate SafeCut(t: string, a: nat) {
    a == 0 || a >= |t| || !IsWord(t[a - 1]) || t[a] !in "bB"
  }

  // The last atoms of a match are matched as they would be on their own.
  lemma {:induction false} MatchAtSuffix(front: seq<Atom>, back: seq<Atom>, t: string, i: nat) returns (k: nat)
    requires i <= |t| && MatchAt(front + back, t, i).Some?
    ensures k <= |t| && MatchAt(back, t, k) == MatchAt(front + back, t, i)
    decreases |front|
  {
    if front == [] {
      assert front + back == back;
      k := i;
    } else {
      var atoms := front + back;
      assert atoms[1..] == front[1..] + back;
      var m := RestOfMatch(atoms, t, i);
      k := MatchAtSuffix(front[1..], back, t, m);
    }
  }

  lemma RestOfMatch(atoms: seq<Atom>, t: string, i: nat) returns (m: nat)
    requires i <= |t| && atoms != [] && MatchAt(atoms, t, i).Some?
    ensures m <= |t| && MatchAt(atoms[1..], t, m) == MatchAt(atoms, t, i)
  {
    if atoms[0].Times? {
      m := i + atoms[0].n;
    } else {
      m := RunTakesItsFirstChoice(atoms, t, i);
    }
  }

  // A bearer match is greedy: it stops behind '=' or in front of a character no token has.
  lemma {:induction false} BearerEndIsSafe(t: string, i: nat)
    requires i <= |t| && MatchAt(BEARER.atoms, t, i).Some?
    ensures SafeCut(t, MatchAt(BEARER.atoms, t, i).value)
  {
    var k := MatchAtSuffix(BEARER_HEAD, BEARER_TAIL, t, i);
    var n := RunLength(BEARER_TAIL[0].cls, t, k);
    var padding := RunLength(BEARER_TAIL[1].cls, t, k + n);
    assert BEARER_TAIL[1..] == [BEARER_TAIL[1]] && BEARER_TAIL[1..][1..] == [];
    assert MatchAt([], t, k + n + padding) == Some(k + n + padding);
    assert TryDown(BEARER_TAIL[1..], t, k + n, 0, padding) == Some(k + n + padding);
    assert MatchAt(BEARER_TAIL[1..], t, k + n) == Some(k + n + padding);
    assert TryDown(BEARER_TAIL, t, k, 20, n) == Some(k + n + padding);
    if padding > 0 {
      assert In(t[k + n + padding - 1], One('='));
    }
  }

  lemma BearerStartsWithB(t: string, x: nat, y: nat)
    requires Occurs(BEARER, t, x, y)
    ensures x < y <= |t| && t[x] in "bB"
  {
    var k: nat :| Repeats(BEARER.atoms[0], t, x, k) && Fits(BEARER.atoms[1..], t, k, y);
    FitsIsARange(BEARER.atoms[1..], t, k, y);
  }

  lemma CleanBearerPiece(t: string, a: nat, b: nat)
    requires a <= b <= |t| && SafeCut(t, a)
    requires forall i: nat, j: nat :: a <= i && (i < b || b == |t|) ==> !Occurs(BEARER, t, i, j)
    ensures Clean(BEARER, t[a..b])
  {
    forall x: nat, y: nat
      ensures !Occurs(BEARER, t[a..b], x, y)
    {
      if Occurs(BEARER, t[a..b], x, y) {
        BearerStartsWithB(t[a..b], x, y);
        assert t[a..b][x] == t[a + x];
        PieceOccurs(BEARER, t, a, b, x, y);
      }
    }
  }

  lemma {:induction false} PassCleansBearer(t: string, from: nat)
    requires from <= |t| && Consumes(BEARER) && SafeCut(t, from)
    ensures Clean(BEARER, ReplaceFrom(BEARER, REDACTED, t, from).text)
    decreases |t| - from
  {
    BearerIsSealed();
    hide Occurs, Consumes, Sealed, SafeCut;
    var f := Find(BEARER, t, from);
    FoundIsNonEmpty(BEARER, t, from);
    FindIsLeftmost(BEARER, t, from);
    CleanBearerPiece(t, from, if f.Found? then f.start else |t|);
    if f.Found? {
      BearerEndIsSafe(t, f.start);
      PassCleansBearer(t, f.end);
      CleanAroundToken(BEARER, t[from..f.start], ReplaceFrom(BEARER, REDACTED, t, f.end).text);
    } else {
      assert t[from..] == t[from..|t|];
    }
  }

  // --- The PEM pattern, whose body may span tokens ---

  // A header in t[i..k] and a footer in t[l..j], in this order.
  ghost predicate Block(t: string, i: nat, k: nat, l: nat, j: nat) {
    Fits(PEM_BEGIN, t, i, k) && k <= l && Fits(PEM_END, t, l, j)
  }

  lemma BlockOccurs(t: string, i: nat, k: nat, l: nat, j: nat)
    requires Block(t, i, k, l, j)
    ensures Occurs(PEM, t, i, j)
  {
    FitsIsARange(PEM_BEGIN, t, i, k);
    FitsIsARange(PEM_END, t, l, j);
    var gap := Run(Any, 0, true);
    assert Repeats(gap, t, k, l) && Fits([], t, l, l) && [gap][1..] == [];
    assert Fits([gap], t, k, l);
    FitsJoins([gap], PEM_END, t, k, l, j);
    FitsJoins(PEM_BEGIN, [gap] + PEM_END, t, i, k, j);
  }

  lemma OccursAsBlock(t: string, i: nat, j: nat) returns (k: nat, l: nat)
    requires Occurs(PEM, t, i, j)
    ensures Block(t, i, k, l, j)
  {
    var gap := Run(Any, 0, true);
    k := FitsSplits(PEM_BEGIN, [gap] + PEM_END, t, i, j);
    l := FitsSplits([gap], PEM_END, t, k, j);
    FitsIsARange([gap], t, k, l);
  }

  // A sealed match in the output is a match in the input from `from` on.
  lemma {:induction false} MapsBack(atoms: seq<Atom>, p: Pattern, t: string, from: nat, x: nat, y: nat)
    returns (x': nat, y': nat)
    requires from <= |t| && Sealed(atoms) && Consumes(p) && Fits(atoms, ReplaceFrom(p, REDACTED, t, from).text, x, y)
    ensures from <= x' && Fits(atoms, t, x', y')
    decreases |t| - from
  {
    hide Sealed, Consumes, Fits, Find, ReplaceFrom;
    var f := Find(p, t, from);
    ReplaceUnfolds(p, t, from);
    x', y' := from + x, from + y;
    if f.Nothing? {
      FitsInPiece(atoms, t, from, |t|, x, y);
    } else {
      var u, v := t[from..f.start], ReplaceFrom(p, REDACTED, t, f.end).text;
      SealedStaysOnOneSide(atoms, u, v, x, y);
      if y <= |u| {
        FitsInPiece(atoms, t, from, f.start, x, y);
      } else {
        x', y' := MapsBack(atoms, p, t, f.end, x - |u| - |REDACTED|, y - |u| - |REDACTED|);
      }
    }
  }

  lemma {:induction false} BlockMapsBack(p: Pattern, t: string, from: nat, x: nat, y: nat, z: nat, w: nat)
    returns (i: nat, k: nat, l: nat, j: nat)
    requires from <= |t| && Consumes(p) && Block(ReplaceFrom(p, REDACTED, t, from).text, x, y, z, w)
    ensures from <= i && Block(t, i, k, l, j)
    decreases |t| - from
  {
    PemPartsAreSealed();
    hide Sealed, Consumes, Fits, Find, ReplaceFrom;
    var f := Find(p, t, from);
    ReplaceUnfolds(p, t, from);
    i, k, l, j := from + x, from + y, from + z, from + w;
    if f.Nothing? {
      FitsInPiece(PEM_BEGIN, t, from, |t|, x, y);
      FitsInPiece(PEM_END, t, from, |t|, z, w);
    } else {
      var u, v := t[from..f.start], ReplaceFrom(p, REDACTED, t, f.end).text;
      var n := |u| + |REDACTED|;
      SealedStaysOnOneSide(PEM_BEGIN, u, v, x, y);
      SealedStaysOnOneSide(PEM_END, u, v, z, w);
      if y > |u| {
        i, k, l, j := BlockMapsBack(p, t, f.end, x - n, y - n, z - n, w - n);
      } else {
        FitsInPiece(PEM_BEGIN, t, from, f.start, x, y);
        if w <= |u| {
          FitsInPiece(PEM_END, t, from, f.start, z, w);
        } else {
          l, j := MapsBack(PEM_END, p, t, f.end, z - n, w - n);
        }
      }
    }
  }

  lemma PassKeepsPemClean(p: Pattern, t: string)
    requires Clean(PEM, t) && Consumes(p)
    ensures Clean(PEM, ReplaceAll(p, REDACTED, t).text)
  {
    var out := ReplaceAll(p, REDACTED, t).text;
    hide Occurs, Block;
    forall x: nat, w: nat
      ensures !Occurs(PEM, out, x, w)
    {
      if Occurs(PEM, out, x, w) {
        var y, z := OccursAsBlock(out, x, w);
        var i, k, l, j := BlockMapsBack(p, t, 0, x, y, z, w);
        BlockOccurs(t, i, k, l, j);
      }
    }
  }

  // Behind the leftmost header that has a footer, the pass leaves no header with a footer; in
  // front of it there is no header at all, because the match's own footer would close it.
  lemma {:induction false} PassCleansPem(t: string, from: nat, x: nat, y: nat, z: nat, w: nat)
    requires from <= |t| && Consumes(PEM)
    ensures !Block(ReplaceFrom(PEM, REDACTED, t, from).text, x, y, z, w)
    decreases |t| - from
  {
    PemPartsAreSealed();
    hide Sealed, Consumes, Fits, Find, ReplaceFrom, Occurs;
    var f := Find(PEM, t, from);
    var out := ReplaceFrom(PEM, REDACTED, t, from).text;
    ReplaceUnfolds(PEM, t, from);
    FindIsLeftmost(PEM, t, from);
    if Block(out, x, y, z, w) {
      if f.Nothing? {
        FitsInPiece(PEM_BEGIN, t, from, |t|, x, y);
        FitsInPiece(PEM_END, t, from, |t|, z, w);
        BlockOccurs(t, from + x, from + y, from + z, from + w);
      } else {
        var u, v := t[from..f.start], ReplaceFrom(PEM, REDACTED, t, f.end).text;
        var n := |u| + |REDACTED|;
        SealedStaysOnOneSide(PEM_BEGIN, u, v, x, y);
        SealedStaysOnOneSide(PEM_END, u, v, z, w);
        if y > |u| {
          PassCleansPem(t, f.end, x - n, y - n, z - n, w - n);
        } else {
          FitsInPiece(PEM_BEGIN, t, from, f.start, x, y);
          HeaderGetsFooter(t, from + x, from + y, f.start, f.end);
        }
      }
    }
  }

  lemma {:induction false} HeaderGetsFooter(t: string, x: nat, y: nat, i: nat, j: nat)
    requires Fits(PEM_BEGIN, t, x, y) && y <= i && Occurs(PEM, t, i, j)
    ensures Occurs(PEM, t, x, j)
  {
    var k, l := OccursAsBlock(t, i, j);
    FitsIsARange(PEM_BEGIN, t, i, k);
    BlockOccurs(t, x, y, l, j);
  }

  // --- One scrub is enough ---

  lemma PassCleans(k: nat, t: string)
    requires k < |SECRET_PATTERNS| && Consumes(SECRET_PATTERNS[k])
    ensures Clean(SECRET_PATTERNS[k], ReplaceAll(SECRET_PATTERNS[k], REDACTED, t).text)
  {
    PatternsAreSealed(k);
    hide Plain, Sealed, Consumes, ReplaceFrom;
    if k == 0 {
      var out := ReplaceAll(PEM, REDACTED, t).text;
      hide Occurs;
      forall x: nat, w: nat
        ensures !Occurs(PEM, out, x, w)
      {
        if Occurs(PEM, out, x, w) {
          var y, z := OccursAsBlock(out, x, w);
          PassCleansPem(t, 0, x, y, z, w);
        }
      }
    } else if k <= 9 {
      PassCleansPlain(SECRET_PATTERNS[k], t, 0);
    } else {
      PassCleansBearer(t, 0);
    }
  }

  lemma PassKeepsClean(m: nat, k: nat, t: string)
    requires m < k < |SECRET_PATTERNS| && Consumes(SECRET_PATTERNS[k])
    requires Clean(SECRET_PATTERNS[m], t)
    ensures Clean(SECRET_PATTERNS[m], ReplaceAll(SECRET_PATTERNS[k], REDACTED, t).text)
  {
    PatternsAreSealed(m);
    hide Plain, Sealed, Consumes, ReplaceFrom, Occurs;
    if m == 0 {
      PassKeepsPemClean(SECRET_PATTERNS[k], t);
    } else {
      PassKeepsPlainClean(SECRET_PATTERNS[m], SECRET_PATTERNS[k], t, 0);
    }
  }

  // After k passes, none of the first k patterns matches.
  lemma {:induction false} PassesClean(text: string, k: nat)
    requires k <= |SECRET_PATTERNS|
    ensures forall m :: 0 <= m < k ==> Clean(SECRET_PATTERNS[m], Passes(text, k).text)
  {
    if k > 0 {
      PatternsAreSealed(k - 1);
      PassesClean(text, k - 1);
      hide Clean, ReplaceAll, Consumes, Plain, Sealed;
      var t := Passes(text, k - 1).text;
      PassCleans(k - 1, t);
      forall m | 0 <= m < k - 1
        ensures Clean(SECRET_PATTERNS[m], Passes(text, k).text)
      {
        PassKeepsClean(m, k - 1, t);
      }
    }
  }

  ghost predicate AllClean(text: string) {
    forall m :: 0 <= m < |SECRET_PATTERNS| ==> Clean(SECRET_PATTERNS[m], text)
  }

  lemma CleanIsKept(p: Pattern, t: string)
    requires Consumes(p)
    ensures ReplaceAll(p, REDACTED, t).count == 0 <==> Clean(p, t)
    ensures Clean(p, t) ==> ReplaceAll(p, REDACTED, t).text == t
  {
    FindIsLeftmost(p, t, 0);
  }

  lemma PassesUnfolds(text: string, k: nat)
    requires 0 < k <= |SECRET_PATTERNS|
    ensures Consumes(SECRET_PATTERNS[k - 1])
    ensures var (done, r) := (Passes(text, k - 1),
                              ReplaceAll(SECRET_PATTERNS[k - 1], REDACTED, Passes(text, k - 1).text));
            Passes(text, k) == Replaced(r.text, done.count + r.count)
  {
    hide ReplaceAll, Consumes, Plain, Sealed;
    PatternsAreSealed(k - 1);
  }

  lemma {:induction false} CleanTextPasses(text: string, k: nat)
    requires k <= |SECRET_PATTERNS|
    ensures Passes(text, k).count == 0 ==> Passes(text, k).text == text
    ensures Passes(text, k).count == 0 <==> forall m :: 0 <= m < k ==> Clean(SECRET_PATTERNS[m], text)
  {
    hide Clean, ReplaceAll, Consumes;
    if k > 0 {
      CleanTextPasses(text, k - 1);
      PassesUnfolds(text, k);
      CleanIsKept(SECRET_PATTERNS[k - 1], Passes(text, k - 1).text);
      hide *;
    }
  }

  // Nothing is left to redact, and a second scrub changes nothing.
  lemma NothingLeftToRedact(text: string)
    ensures AllClean(Scrub(text).text)
    ensures Scrub(Scrub(text).text) == Replaced(Scrub(text).text, 0)
  {
    PassesClean(text, |SECRET_PATTERNS|);
    CleanTextPasses(Scrub(text).text, |SECRET_PATTERNS|);
  }
}
