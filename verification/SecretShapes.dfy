// What a secret is, in plain characters: the texts that the patterns stand for, and the redaction
// measured against them.
module SecretShapes {
  import opened Regex
  import opened Secrets

  // --- Characters ---

  predicate AlnumChar(c: char) {
    'a' <= c <= 'z' || 'A' <= c <= 'Z' || '0' <= c <= '9'
  }

  // Letters, digits, '_' and '-'.
  predicate KeyChar(c: char) {
    'a' <= c <= 'z' || 'A' <= c <= 'Z' || '0' <= c <= '9' || c == '_' || c == '-'
  }

  predicate PatChar(c: char) {
    'a' <= c <= 'z' || 'A' <= c <= 'Z' || '0' <= c <= '9' || c == '_'
  }

  predicate SlackChar(c: char) {
    'a' <= c <= 'z' || 'A' <= c <= 'Z' || '0' <= c <= '9' || c == '-'
  }

  predicate AwsChar(c: char) {
    'A' <= c <= 'Z' || '0' <= c <= '9'
  }

  predicate PemChar(c: char) {
    'A' <= c <= 'Z' || '0' <= c <= '9' || c == ' '
  }

  predicate BearerChar(c: char) {
    || 'a' <= c <= 'z' || 'A' <= c <= 'Z' || '0' <= c <= '9'
    || c == '.' || c == '_' || c == '~' || c == '+' || c == '/' || c == '-'
  }

  // Tab, line feed, vertical tab, form feed, carriage return, and the Unicode spaces.
  predicate BlankChar(c: char) {
    || c == ' ' || c == '\t' || c == '\n' || c == '\U{000B}' || c == '\U{000C}' || c == '\r'
    || c == '\U{00A0}' || c == '\U{1680}' || '\U{2000}' <= c <= '\U{200A}'
    || c == '\U{2028}' || c == '\U{2029}' || c == '\U{202F}' || c == '\U{205F}' || c == '\U{3000}' || c == '\U{FEFF}'
  }

  // --- Texts ---

  ghost predicate Has(t: string, x: nat, s: string) {
    x + |s| <= |t| && t[x..x + |s|] == s
  }

  ghost predicate Span(t: string, i: nat, j: nat, ok: char -> bool) {
    i <= j <= |t| && forall k :: i <= k < j ==> ok(t[k])
  }

  // prefix, and at least min characters of the alphabet behind it.
  ghost predicate KeyAt(t: string, x: nat, prefix: string, min: nat, ok: char -> bool) {
    Has(t, x, prefix) && Span(t, x + |prefix|, x + |prefix| + min, ok)
  }

  ghost predicate GithubAt(t: string, x: nat) {
    Has(t, x, "gh") && x + 4 <= |t| && t[x + 2] in "pousr" && t[x + 3] == '_' && Span(t, x + 4, x + 24, AlnumChar)
  }

  ghost predicate SlackAt(t: string, x: nat) {
    Has(t, x, "xox") && x + 5 <= |t| && t[x + 3] in "baprs" && t[x + 4] == '-' && Span(t, x + 5, x + 15, SlackChar)
  }

  // Three dotted parts of at least ten characters, the dots at i and j.
  ghost predicate JwtParts(t: string, x: nat, i: nat, j: nat) {
    && Has(t, x, "eyJ") && x + 13 <= i && Span(t, x + 3, i, KeyChar)
    && Has(t, i, ".") && i + 11 <= j && Span(t, i + 1, j, KeyChar)
    && Has(t, j, ".") && Span(t, j + 1, j + 11, KeyChar)
  }

  ghost predicate JwtAt(t: string, x: nat) {
    exists i: nat, j: nat :: JwtParts(t, x, i, j)
  }

  predicate EitherCase(c: char, lower: char, upper: char) {
    c == lower || c == upper
  }

  // The word "bearer" in any case, not behind a letter, digit or '_'.
  ghost predicate BearerWord(t: string, x: nat) {
    && x + 6 <= |t| && (x > 0 ==> !PatChar(t[x - 1]))
    && EitherCase(t[x], 'b', 'B') && EitherCase(t[x + 1], 'e', 'E') && EitherCase(t[x + 2], 'a', 'A')
    && EitherCase(t[x + 3], 'r', 'R') && EitherCase(t[x + 4], 'e', 'E') && EitherCase(t[x + 5], 'r', 'R')
  }

  // ... white space up to i, and at least twenty characters of a token.
  ghost predicate BearerToken(t: string, x: nat, i: nat) {
    x + 7 <= i && Span(t, x + 6, i, BlankChar) && Span(t, i, i + 20, BearerChar)
  }

  ghost predicate BearerAt(t: string, x: nat) {
    BearerWord(t, x) && exists i: nat :: BearerToken(t, x, i)
  }

  // A PEM line from x to k, with its label up to m.
  ghost predicate PemLine(t: string, x: nat, m: nat, k: nat, start: string) {
    Has(t, x, start) && Span(t, x + |start|, m, PemChar) && Has(t, m, "PRIVATE KEY-----") && k == m + 16
  }

  ghost predicate PemLineAt(t: string, x: nat, k: nat, start: string) {
    exists m: nat :: PemLine(t, x, m, k, start)
  }

  ghost predicate PemBlock(t: string, x: nat, k: nat, l: nat, j: nat) {
    PemLineAt(t, x, k, "-----BEGIN ") && k <= l && PemLineAt(t, l, j, "-----END ")
  }

  ghost predicate PemAt(t: string, x: nat) {
    exists k: nat, l: nat, j: nat :: PemBlock(t, x, k, l, j)
  }

  // A secret of one of the eleven kinds starts at x.
  ghost predicate SecretAt(t: string, x: nat) {
    || PemAt(t, x)
    || KeyAt(t, x, "sk-ant-", 16, KeyChar)
    || KeyAt(t, x, "sk-", 16, KeyChar)
    || KeyAt(t, x, "AIza", 20, KeyChar)
    || KeyAt(t, x, "ya29.", 1, KeyChar)
    || GithubAt(t, x)
    || KeyAt(t, x, "github_pat_", 20, PatChar)
    || SlackAt(t, x)
    || KeyAt(t, x, "AKIA", 16, AwsChar)
    || JwtAt(t, x)
    || BearerAt(t, x)
  }

  ghost predicate HasSecret(t: string) {
    exists x: nat :: SecretAt(t, x)
  }

  // --- From patterns to characters ---

  ghost predicate StartsAt(p: Pattern, t: string, x: nat) {
    exists y: nat :: Occurs(p, t, x, y)
  }

  lemma CleanIffNoStart(p: Pattern, t: string)
    ensures Clean(p, t) <==> forall x: nat :: !StartsAt(p, t, x)
  {
    hide Occurs;
    if !Clean(p, t) {
      var x: nat, y: nat :| Occurs(p, t, x, y);
      assert StartsAt(p, t, x);
    }
  }

  lemma {:induction false} FitsNothing(t: string, i: nat, j: nat)
    ensures Fits([], t, i, j) <==> i == j <= |t|
  {
  }

  lemma {:induction false} FitsCons(atom: Atom, rest: seq<Atom>, t: string, i: nat, j: nat)
    ensures Fits([atom] + rest, t, i, j) <==> exists k: nat :: Repeats(atom, t, i, k) && Fits(rest, t, k, j)
  {
    var atoms := [atom] + rest;
    assert atoms[0] == atom && atoms[1..] == rest;
    assert Fits(atoms, t, i, j) <==> exists k: nat :: Repeats(atoms[0], t, i, k) && Fits(atoms[1..], t, k, j);
    hide Fits, Repeats;
  }

  // One character.
  lemma {:induction false} FitsOne(cls: Class, rest: seq<Atom>, t: string, i: nat, j: nat)
    ensures Fits([Times(cls, 1)] + rest, t, i, j) <==> i < |t| && In(t[i], cls) && Fits(rest, t, i + 1, j)
  {
    FitsCons(Times(cls, 1), rest, t, i, j);
    hide Fits, In;
    if i < |t| && In(t[i], cls) && Fits(rest, t, i + 1, j) {
      assert Repeats(Times(cls, 1), t, i, i + 1);
    }
  }

  lemma {:induction false} FitsLit(s: string, rest: seq<Atom>, t: string, i: nat, j: nat)
    ensures Fits(Lit(s) + rest, t, i, j) <==> Has(t, i, s) && Fits(rest, t, i + |s|, j)
    decreases s
  {
    hide Fits;
    if s == "" {
      assert Lit(s) + rest == rest;
      if Fits(rest, t, i, j) {
        FitsIsARange(rest, t, i, j);
      }
    } else {
      assert Lit(s) + rest == [Times(One(s[0]), 1)] + (Lit(s[1..]) + rest);
      FitsOne(One(s[0]), Lit(s[1..]) + rest, t, i, j);
      FitsLit(s[1..], rest, t, i + 1, j);
      HasCons(t, i, s);
      hide Has;
    }
  }

  lemma HasCons(t: string, i: nat, s: string)
    requires s != ""
    ensures Has(t, i, s) <==> i < |t| && t[i] == s[0] && Has(t, i + 1, s[1..])
  {
    if Has(t, i, s) {
      assert t[i..i + |s|][0] == t[i];
      assert t[i + 1..i + |s|] == t[i..i + |s|][1..];
    }
    assert i + |s| <= |t| ==> t[i..i + |s|] == [t[i]] + t[i + 1..i + |s|];
    assert s == [s[0]] + s[1..];
  }

  lemma {:induction false} FitsRun(cls: Class, min: nat, lazy: bool, t: string, i: nat, j: nat)
    ensures Fits([Run(cls, min, lazy)], t, i, j) <==> AllIn(cls, t, i, j) && j >= i + min
  {
    var run := Run(cls, min, lazy);
    assert [run] == [run] + [];
    FitsCons(run, [], t, i, j);
    forall k: nat
      ensures Fits([], t, k, j) <==> k == j <= |t|
    {
      FitsNothing(t, k, j);
    }
    hide Fits, AllIn;
    assert Repeats(run, t, i, j) <==> AllIn(cls, t, i, j) && j >= i + min;
    if AllIn(cls, t, i, j) && j >= i + min {
      AllInIsARange(cls, t, i, j);
    }
  }

  lemma AllInIsARange(cls: Class, t: string, i: nat, j: nat)
    requires AllIn(cls, t, i, j)
    ensures i <= j <= |t|
  {
  }

  // The class and the alphabet are the same.
  ghost predicate Same(cls: Class, ok: char -> bool) {
    forall c: char :: In(c, cls) <==> ok(c)
  }

  lemma AlphabetsAgree()
    ensures Same(AlnumOr("_-"), KeyChar) && Same(Alnum, AlnumChar) && Same(AlnumOr("_"), PatChar)
    ensures Same(AlnumOr("-"), SlackChar) && Same(UpperDigit, AwsChar) && Same(UpperDigitSpace, PemChar)
    ensures Same(AlnumOr("._~+/-"), BearerChar) && Same(Space, BlankChar)
  {
  }

  lemma SpanIsAllIn(cls: Class, ok: char -> bool, t: string, i: nat, j: nat)
    requires Same(cls, ok)
    ensures AllIn(cls, t, i, j) <==> Span(t, i, j, ok)
  {
    hide In;
  }

  // A run of at least min characters starts at i exactly if min of them do.
  lemma RunStarts(cls: Class, min: nat, ok: char -> bool, t: string, i: nat)
    requires Same(cls, ok)
    ensures (exists y: nat :: Fits([Run(cls, min, false)], t, i, y)) <==> Span(t, i, i + min, ok)
  {
    forall y: nat
      ensures Fits([Run(cls, min, false)], t, i, y) <==> Span(t, i, y, ok) && y >= i + min
    {
      FitsRun(cls, min, false, t, i, y);
      SpanIsAllIn(cls, ok, t, i, y);
    }
    hide Fits, Same;
    if Span(t, i, i + min, ok) {
      assert Fits([Run(cls, min, false)], t, i, i + min);
    }
  }

  lemma KeyStarts(prefix: string, cls: Class, min: nat, ok: char -> bool, t: string, x: nat)
    requires Same(cls, ok)
    ensures StartsAt(Pattern(false, Lit(prefix) + [Run(cls, min, false)]), t, x) <==> KeyAt(t, x, prefix, min, ok)
  {
    var p := Pattern(false, Lit(prefix) + [Run(cls, min, false)]);
    forall y: nat
      ensures Occurs(p, t, x, y) <==> Has(t, x, prefix) && Fits([Run(cls, min, false)], t, x + |prefix|, y)
    {
      PlainOccurs(p, t, x, y);
      FitsLit(prefix, [Run(cls, min, false)], t, x, y);
    }
    RunStarts(cls, min, ok, t, x + |prefix|);
    hide Occurs, Fits, Same, Has, Span;
    if StartsAt(p, t, x) {
      var y: nat :| Occurs(p, t, x, y);
      assert Fits([Run(cls, min, false)], t, x + |prefix|, y);
    }
    if KeyAt(t, x, prefix, min, ok) {
      var y: nat :| Fits([Run(cls, min, false)], t, x + |prefix|, y);
      assert Occurs(p, t, x, y);
    }
  }

  lemma {:induction false} PlainOccurs(p: Pattern, t: string, x: nat, y: nat)
    requires !p.wordStart
    ensures Occurs(p, t, x, y) <==> Fits(p.atoms, t, x, y)
  {
    if Fits(p.atoms, t, x, y) {
      FitsIsARange(p.atoms, t, x, y);
    }
    hide Fits;
  }

  lemma KeyShapes(t: string, x: nat)
    ensures StartsAt(ANTHROPIC, t, x) <==> KeyAt(t, x, "sk-ant-", 16, KeyChar)
    ensures StartsAt(SK_KEY, t, x) <==> KeyAt(t, x, "sk-", 16, KeyChar)
    ensures StartsAt(GOOGLE_KEY, t, x) <==> KeyAt(t, x, "AIza", 20, KeyChar)
    ensures StartsAt(GOOGLE_OAUTH, t, x) <==> KeyAt(t, x, "ya29.", 1, KeyChar)
    ensures StartsAt(GITHUB_PAT, t, x) <==> KeyAt(t, x, "github_pat_", 20, PatChar)
  {
    hide StartsAt, KeyAt, Same, Lit;
    AlphabetsAgree();
    KeyStarts("sk-ant-", AlnumOr("_-"), 16, KeyChar, t, x);
    KeyStarts("sk-", AlnumOr("_-"), 16, KeyChar, t, x);
    KeyStarts("AIza", AlnumOr("_-"), 20, KeyChar, t, x);
    KeyStarts("ya29.", AlnumOr("_-"), 1, KeyChar, t, x);
    KeyStarts("github_pat_", AlnumOr("_"), 20, PatChar, t, x);
  }


  // prefix, one character, a given one, and a run.
  lemma MarkedKeyStarts(prefix: string, mark: Class, c: char, cls: Class, min: nat, ok: char -> bool, t: string, x: nat)
    requires Same(cls, ok)
    ensures StartsAt(Pattern(false, Lit(prefix) + [Times(mark, 1), Times(One(c), 1), Run(cls, min, false)]), t, x) <==>
            && Has(t, x, prefix) && x + |prefix| + 2 <= |t| && In(t[x + |prefix|], mark) && t[x + |prefix| + 1] == c
            && Span(t, x + |prefix| + 2, x + |prefix| + 2 + min, ok)
  {
    var n, run := x + |prefix|, [Run(cls, min, false)];
    var marked := [Times(mark, 1), Times(One(c), 1), Run(cls, min, false)];
    var p := Pattern(false, Lit(prefix) + marked);
    assert marked == [Times(mark, 1)] + ([Times(One(c), 1)] + run);
    forall y: nat
      ensures Occurs(p, t, x, y) <==>
              && Has(t, x, prefix) && n + 2 <= |t| && In(t[n], mark) && t[n + 1] == c && Fits(run, t, n + 2, y)
    {
      PlainOccurs(p, t, x, y);
      FitsLit(prefix, marked, t, x, y);
      FitsOne(mark, [Times(One(c), 1)] + run, t, n, y);
      FitsOne(One(c), run, t, n + 1, y);
      hide Fits, Has;
    }
    RunStarts(cls, min, ok, t, n + 2);
    hide Occurs, Fits, Same, Has, Span, In;
    if StartsAt(p, t, x) {
      var y: nat :| Occurs(p, t, x, y);
      assert Fits(run, t, n + 2, y);
    }
    if Span(t, n + 2, n + 2 + min, ok) && Has(t, x, prefix) && n + 2 <= |t| && In(t[n], mark) && t[n + 1] == c {
      var y: nat :| Fits(run, t, n + 2, y);
      assert Occurs(p, t, x, y);
    }
  }

  lemma GithubShape(t: string, x: nat)
    ensures StartsAt(GITHUB, t, x) <==> GithubAt(t, x)
  {
    AlphabetsAgree();
    MarkedKeyStarts("gh", OneOf("pousr"), '_', Alnum, 20, AlnumChar, t, x);
    hide StartsAt, Same, Span, Lit, Has;
  }

  lemma SlackShape(t: string, x: nat)
    ensures StartsAt(SLACK, t, x) <==> SlackAt(t, x)
  {
    AlphabetsAgree();
    MarkedKeyStarts("xox", OneOf("baprs"), '-', AlnumOr("-"), 10, SlackChar, t, x);
    hide StartsAt, Same, Span, Lit, Has;
  }

  lemma AwsShape(t: string, x: nat)
    ensures StartsAt(AWS, t, x) <==> KeyAt(t, x, "AKIA", 16, AwsChar)
  {
    var sixteen := [Times(UpperDigit, 16)];
    forall y: nat
      ensures Occurs(AWS, t, x, y) <==> Has(t, x, "AKIA") && Span(t, x + 4, y, AwsChar) && y == x + 20
    {
      PlainOccurs(AWS, t, x, y);
      FitsLit("AKIA", sixteen, t, x, y);
      FitsTimes(UpperDigit, 16, t, x + 4, y);
      AlphabetsAgree();
      SpanIsAllIn(UpperDigit, AwsChar, t, x + 4, y);
      hide Fits, Has, Span, Same, Lit;
    }
    hide Occurs, Has, Span;
    if KeyAt(t, x, "AKIA", 16, AwsChar) {
      assert Occurs(AWS, t, x, x + 20);
    }
  }

  lemma {:induction false} FitsTimes(cls: Class, n: nat, t: string, i: nat, j: nat)
    ensures Fits([Times(cls, n)], t, i, j) <==> AllIn(cls, t, i, j) && j == i + n
  {
    var times := Times(cls, n);
    assert [times] == [times] + [];
    FitsCons(times, [], t, i, j);
    forall k: nat
      ensures Fits([], t, k, j) <==> k == j <= |t|
    {
      FitsNothing(t, k, j);
    }
    hide Fits, AllIn;
    assert Repeats(times, t, i, j) <==> AllIn(cls, t, i, j) && j == i + n;
    if AllIn(cls, t, i, j) && j == i + n {
      AllInIsARange(cls, t, i, j);
    }
  }

  // --- Dotted tokens ---

  // A part of at least ten characters, from i to k, with a dot behind it.
  lemma {:induction false} FitsPart(rest: seq<Atom>, t: string, i: nat, y: nat)
    ensures Fits([JWT_PART, Times(One('.'), 1)] + rest, t, i, y) <==>
            exists k: nat :: Span(t, i, k, KeyChar) && k >= i + 10 && k < |t| && t[k] == '.' && Fits(rest, t, k + 1, y)
  {
    assert [JWT_PART, Times(One('.'), 1)] + rest == [JWT_PART] + ([Times(One('.'), 1)] + rest);
    FitsCons(JWT_PART, [Times(One('.'), 1)] + rest, t, i, y);
    AlphabetsAgree();
    forall k: nat
      ensures Repeats(JWT_PART, t, i, k) && Fits([Times(One('.'), 1)] + rest, t, k, y) <==>
              Span(t, i, k, KeyChar) && k >= i + 10 && k < |t| && t[k] == '.' && Fits(rest, t, k + 1, y)
    {
      FitsOne(One('.'), rest, t, k, y);
      SpanIsAllIn(AlnumOr("_-"), KeyChar, t, i, k);
      hide Fits, Span, Same;
    }
    hide Fits, Span, Same, Repeats;
    if Fits([JWT_PART, Times(One('.'), 1)] + rest, t, i, y) {
      var k: nat :| Repeats(JWT_PART, t, i, k) && Fits([Times(One('.'), 1)] + rest, t, k, y);
      assert Span(t, i, k, KeyChar);
    }
  }

  const JWT_TWO: seq<Atom> := [JWT_PART, Times(One('.'), 1)] + [JWT_PART]

  lemma {:induction false} JwtFits(t: string, x: nat, y: nat)
    ensures Occurs(JWT, t, x, y) <==>
            Has(t, x, "eyJ") && Fits([JWT_PART, Times(One('.'), 1)] + JWT_TWO, t, x + 3, y)
  {
    assert [JWT_PART, Times(One('.'), 1), JWT_PART, Times(One('.'), 1), JWT_PART] ==
           [JWT_PART, Times(One('.'), 1)] + JWT_TWO;
    PlainOccurs(JWT, t, x, y);
    FitsLit("eyJ", [JWT_PART, Times(One('.'), 1)] + JWT_TWO, t, x, y);
    hide Fits, Has;
  }

  lemma DotIsText(t: string, i: nat)
    ensures Has(t, i, ".") <==> i < |t| && t[i] == '.'
  {
    if i < |t| {
      assert t[i..i + 1] == [t[i]];
    }
  }

  lemma JwtHasParts(t: string, x: nat, y: nat) returns (i: nat, j: nat)
    requires Occurs(JWT, t, x, y)
    ensures JwtParts(t, x, i, j)
  {
    JwtFits(t, x, y);
    hide Fits, Occurs, Span, Has, In;
    FitsPart(JWT_TWO, t, x + 3, y);
    i :| Span(t, x + 3, i, KeyChar) && i >= x + 13 && i < |t| && t[i] == '.' && Fits(JWT_TWO, t, i + 1, y);
    FitsPart([JWT_PART], t, i + 1, y);
    j :| Span(t, i + 1, j, KeyChar) && j >= i + 11 && j < |t| && t[j] == '.' && Fits([JWT_PART], t, j + 1, y);
    RunGivesSpan(t, j + 1, y);
    DotIsText(t, i);
    DotIsText(t, j);
  }

  lemma PartsAreJwt(t: string, x: nat, i: nat, j: nat) returns (y: nat)
    requires JwtParts(t, x, i, j)
    ensures Occurs(JWT, t, x, y)
  {
    y := PartsEnd(t, x, i, j);
    hide Fits, Occurs, Span, Has, In;
    JwtFits(t, x, y);
    DotIsText(t, i);
    DotIsText(t, j);
    FitsPart([JWT_PART], t, i + 1, y);
    assert Span(t, i + 1, j, KeyChar) && Fits([JWT_PART], t, j + 1, y);
    FitsPart(JWT_TWO, t, x + 3, y);
    assert Span(t, x + 3, i, KeyChar) && Fits(JWT_TWO, t, i + 1, y);
  }

  lemma {:induction false} RunGivesSpan(t: string, j: nat, y: nat)
    requires Fits([JWT_PART], t, j, y)
    ensures Span(t, j, j + 10, KeyChar)
  {
    AlphabetsAgree();
    RunStarts(AlnumOr("_-"), 10, KeyChar, t, j);
    hide Fits, Span, Same;
    assert Fits([Run(AlnumOr("_-"), 10, false)], t, j, y);
  }

  lemma JwtShape(t: string, x: nat)
    ensures StartsAt(JWT, t, x) <==> JwtAt(t, x)
  {
    hide Fits, Occurs, JwtParts;
    if StartsAt(JWT, t, x) {
      var y: nat :| Occurs(JWT, t, x, y);
      var i, j := JwtHasParts(t, x, y);
    }
    if JwtAt(t, x) {
      var i: nat, j: nat :| JwtParts(t, x, i, j);
      var y := PartsAreJwt(t, x, i, j);
    }
  }

  lemma PartsEnd(t: string, x: nat, i: nat, j: nat) returns (y: nat)
    requires JwtParts(t, x, i, j)
    ensures Fits([JWT_PART], t, j + 1, y)
  {
    AlphabetsAgree();
    RunStarts(AlnumOr("_-"), 10, KeyChar, t, j + 1);
    hide Fits, Same;
    y :| Fits([Run(AlnumOr("_-"), 10, false)], t, j + 1, y);
  }

  // --- PEM blocks ---

  lemma {:induction false} PemLineFits(start: string, t: string, x: nat, k: nat)
    ensures Fits(Lit(start) + [Run(UpperDigitSpace, 0, false)] + Lit("PRIVATE KEY-----"), t, x, k) <==>
            PemLineAt(t, x, k, start)
  {
    var run, end := Run(UpperDigitSpace, 0, false), Lit("PRIVATE KEY-----");
    assert Lit(start) + [run] + end == Lit(start) + ([run] + end) && end == end + [];
    FitsLit(start, [run] + end, t, x, k);
    FitsCons(run, end, t, x + |start|, k);
    AlphabetsAgree();
    forall m: nat
      ensures Repeats(run, t, x + |start|, m) && Fits(end, t, m, k) <==>
              Span(t, x + |start|, m, PemChar) && Has(t, m, "PRIVATE KEY-----") && k == m + 16
    {
      FitsLit("PRIVATE KEY-----", [], t, m, k);
      FitsNothing(t, m + 16, k);
      SpanIsAllIn(UpperDigitSpace, PemChar, t, x + |start|, m);
      hide Fits, Span, Same, Lit;
      assert |"PRIVATE KEY-----"| == 16;
    }
    hide Fits, Span, Same, Repeats, Has, Lit;
    if Has(t, x, start) {
      if m: nat :| Repeats(run, t, x + |start|, m) && Fits(end, t, m, k) {
        assert PemLine(t, x, m, k, start);
      }
      if m: nat :| PemLine(t, x, m, k, start) {
        assert Repeats(run, t, x + |start|, m) && Fits(end, t, m, k);
      }
    }
  }

  lemma PemShape(t: string, x: nat)
    ensures StartsAt(PEM, t, x) <==> PemAt(t, x)
  {
    hide Fits, Occurs, PemLineAt, Lit;
    if StartsAt(PEM, t, x) {
      var y: nat :| Occurs(PEM, t, x, y);
      var k, l := OccursAsBlock(t, x, y);
      PemLineFits("-----BEGIN ", t, x, k);
      PemLineFits("-----END ", t, l, y);
      assert PemBlock(t, x, k, l, y);
    }
    if PemAt(t, x) {
      var k: nat, l: nat, j: nat :| PemBlock(t, x, k, l, j);
      PemLineFits("-----BEGIN ", t, x, k);
      PemLineFits("-----END ", t, l, j);
      BlockOccurs(t, x, k, l, j);
    }
  }


  // --- Bearer tokens ---

  const BEARER_LETTERS: seq<Atom> := [
    Times(OneNoCase('b', 'B'), 1), Times(OneNoCase('e', 'E'), 1), Times(OneNoCase('a', 'A'), 1),
    Times(OneNoCase('r', 'R'), 1), Times(OneNoCase('e', 'E'), 1), Times(OneNoCase('r', 'R'), 1)]

  // Two letters of either case.
  lemma {:induction false} FitsTwoLetters(a: Class, b: Class, rest: seq<Atom>, t: string, x: nat, y: nat)
    ensures Fits([Times(a, 1), Times(b, 1)] + rest, t, x, y) <==>
            x + 2 <= |t| && In(t[x], a) && In(t[x + 1], b) && Fits(rest, t, x + 2, y)
  {
    assert [Times(a, 1), Times(b, 1)] + rest == [Times(a, 1)] + ([Times(b, 1)] + rest);
    FitsOne(a, [Times(b, 1)] + rest, t, x, y);
    FitsOne(b, rest, t, x + 1, y);
    hide Fits, In;
  }

  lemma {:induction false} FitsLetters(rest: seq<Atom>, t: string, x: nat, y: nat)
    ensures Fits(BEARER_LETTERS + rest, t, x, y) <==>
            && x + 6 <= |t|
            && EitherCase(t[x], 'b', 'B') && EitherCase(t[x + 1], 'e', 'E') && EitherCase(t[x + 2], 'a', 'A')
            && EitherCase(t[x + 3], 'r', 'R') && EitherCase(t[x + 4], 'e', 'E') && EitherCase(t[x + 5], 'r', 'R')
            && Fits(rest, t, x + 6, y)
  {
    var b, e, a, r := OneNoCase('b', 'B'), OneNoCase('e', 'E'), OneNoCase('a', 'A'), OneNoCase('r', 'R');
    var four := [Times(a, 1), Times(r, 1)] + ([Times(e, 1), Times(r, 1)] + rest);
    assert BEARER_LETTERS + rest == [Times(b, 1), Times(e, 1)] + four;
    FitsTwoLetters(b, e, four, t, x, y);
    FitsTwoLetters(a, r, [Times(e, 1), Times(r, 1)] + rest, t, x + 2, y);
    FitsTwoLetters(e, r, rest, t, x + 4, y);
    hide Fits;
  }

  lemma BoundaryInFrontOfB(t: string, x: nat)
    requires x < |t| && EitherCase(t[x], 'b', 'B')
    ensures AtBoundary(t, x) <==> (x > 0 ==> !PatChar(t[x - 1]))
  {
  }

  lemma {:induction false} BearerFits(t: string, x: nat, y: nat)
    ensures Occurs(BEARER, t, x, y) <==> BearerWord(t, x) && Fits([Run(Space, 1, false)] + BEARER_TAIL, t, x + 6, y)
  {
    assert BEARER.atoms == BEARER_LETTERS + ([Run(Space, 1, false)] + BEARER_TAIL);
    FitsLetters([Run(Space, 1, false)] + BEARER_TAIL, t, x, y);
    hide Fits, AtBoundary;
    if x < |t| && EitherCase(t[x], 'b', 'B') {
      BoundaryInFrontOfB(t, x);
    }
    hide PatChar;
  }

  lemma TailStarts(t: string, i: nat)
    ensures (exists y: nat :: Fits(BEARER_TAIL, t, i, y)) <==> Span(t, i, i + 20, BearerChar)
  {
    var run, pad := Run(AlnumOr("._~+/-"), 20, false), [Run(One('='), 0, false)];
    assert BEARER_TAIL == [run] + pad;
    AlphabetsAgree();
    if y: nat :| Fits(BEARER_TAIL, t, i, y) {
      FitsCons(run, pad, t, i, y);
      hide Fits;
      var k: nat :| Repeats(run, t, i, k) && Fits(pad, t, k, y);
      SpanIsAllIn(AlnumOr("._~+/-"), BearerChar, t, i, k);
      hide Same, In;
    }
    if Span(t, i, i + 20, BearerChar) {
      SpanIsAllIn(AlnumOr("._~+/-"), BearerChar, t, i, i + 20);
      FitsRun(One('='), 0, false, t, i + 20, i + 20);
      FitsCons(run, pad, t, i, i + 20);
      hide Fits, Same, In, Span;
      assert Repeats(run, t, i, i + 20) && Fits(pad, t, i + 20, i + 20);
    }
  }

  lemma {:induction false} SpacesThenTail(t: string, x: nat, y: nat)
    ensures Fits([Run(Space, 1, false)] + BEARER_TAIL, t, x, y) <==>
            exists i: nat :: Span(t, x, i, BlankChar) && i > x && Fits(BEARER_TAIL, t, i, y)
  {
    var run := Run(Space, 1, false);
    FitsCons(run, BEARER_TAIL, t, x, y);
    AlphabetsAgree();
    forall i: nat
      ensures Repeats(run, t, x, i) <==> Span(t, x, i, BlankChar) && i > x
    {
      SpanIsAllIn(Space, BlankChar, t, x, i);
      hide AllIn, Span, Same;
    }
    hide Fits, Span, Same, Repeats;
    if i: nat :| Repeats(run, t, x, i) && Fits(BEARER_TAIL, t, i, y) {
      assert Span(t, x, i, BlankChar);
    }
    if i: nat :| Span(t, x, i, BlankChar) && i > x && Fits(BEARER_TAIL, t, i, y) {
      assert Repeats(run, t, x, i);
    }
  }

  lemma BearerShape(t: string, x: nat)
    ensures StartsAt(BEARER, t, x) <==> BearerAt(t, x)
  {
    hide Fits, Occurs, BearerWord, Span;
    if StartsAt(BEARER, t, x) {
      var y: nat :| Occurs(BEARER, t, x, y);
      BearerFits(t, x, y);
      SpacesThenTail(t, x + 6, y);
      var i: nat :| Span(t, x + 6, i, BlankChar) && i > x + 6 && Fits(BEARER_TAIL, t, i, y);
      TailStarts(t, i);
      assert exists z: nat :: Fits(BEARER_TAIL, t, i, z);
      assert BearerToken(t, x, i);
    }
    if BearerAt(t, x) {
      var i: nat :| BearerToken(t, x, i);
      TailStarts(t, i);
      var y: nat :| Fits(BEARER_TAIL, t, i, y);
      SpacesThenTail(t, x + 6, y);
      assert Span(t, x + 6, i, BlankChar) && i > x + 6;
      BearerFits(t, x, y);
      assert Occurs(BEARER, t, x, y);
    }
  }

  // --- The redaction, in plain characters ---

  ghost predicate SomePatternStarts(t: string, x: nat) {
    exists k :: 0 <= k < |SECRET_PATTERNS| && StartsAt(SECRET_PATTERNS[k], t, x)
  }

  lemma PatternsByName(t: string, x: nat)
    ensures SomePatternStarts(t, x) <==>
            || StartsAt(PEM, t, x) || StartsAt(ANTHROPIC, t, x) || StartsAt(SK_KEY, t, x) || StartsAt(GOOGLE_KEY, t, x)
            || StartsAt(GOOGLE_OAUTH, t, x) || StartsAt(GITHUB, t, x) || StartsAt(GITHUB_PAT, t, x)
            || StartsAt(SLACK, t, x) || StartsAt(AWS, t, x) || StartsAt(JWT, t, x) || StartsAt(BEARER, t, x)
  {
    hide StartsAt, Lit;
    hide PEM, ANTHROPIC, SK_KEY, GOOGLE_KEY, GOOGLE_OAUTH, GITHUB, GITHUB_PAT, SLACK, AWS, JWT, BEARER;
    assert SECRET_PATTERNS[0] == PEM && SECRET_PATTERNS[1] == ANTHROPIC && SECRET_PATTERNS[2] == SK_KEY;
    assert SECRET_PATTERNS[3] == GOOGLE_KEY && SECRET_PATTERNS[4] == GOOGLE_OAUTH && SECRET_PATTERNS[5] == GITHUB;
    assert SECRET_PATTERNS[6] == GITHUB_PAT && SECRET_PATTERNS[7] == SLACK && SECRET_PATTERNS[8] == AWS;
    assert SECRET_PATTERNS[9] == JWT && SECRET_PATTERNS[10] == BEARER && |SECRET_PATTERNS| == 11;
  }

  lemma SecretsStart(t: string, x: nat)
    ensures SecretAt(t, x) <==> SomePatternStarts(t, x)
  {
    hide StartsAt, KeyAt, GithubAt, SlackAt, JwtAt, BearerAt, PemAt, SomePatternStarts;
    PatternsByName(t, x);
    PemShape(t, x);
    KeyShapes(t, x);
    GithubShape(t, x);
    SlackShape(t, x);
    AwsShape(t, x);
    JwtShape(t, x);
    BearerShape(t, x);
  }

  // The patterns find nothing exactly in the texts that hold no secret.
  lemma CleanIffNoSecret(t: string)
    ensures AllClean(t) <==> !HasSecret(t)
  {
    hide StartsAt, SecretAt;
    forall x: nat
      ensures SecretAt(t, x) <==> SomePatternStarts(t, x)
    {
      SecretsStart(t, x);
    }
    forall k | 0 <= k < |SECRET_PATTERNS|
      ensures Clean(SECRET_PATTERNS[k], t) <==> forall x: nat :: !StartsAt(SECRET_PATTERNS[k], t, x)
    {
      CleanIffNoStart(SECRET_PATTERNS[k], t);
    }
    hide Clean, SECRET_PATTERNS;
    if HasSecret(t) {
      var x: nat :| SecretAt(t, x);
      var k :| 0 <= k < |SECRET_PATTERNS| && StartsAt(SECRET_PATTERNS[k], t, x);
    }
    if !AllClean(t) {
      var k :| 0 <= k < |SECRET_PATTERNS| && !Clean(SECRET_PATTERNS[k], t);
      var x: nat :| StartsAt(SECRET_PATTERNS[k], t, x);
      assert SomePatternStarts(t, x);
    }
  }

  // A scrub leaves a text without secrets as it is, and counts none; it finds something in every
  // other text, and never leaves a secret behind.
  lemma ScrubIsRight(t: string)
    ensures !HasSecret(Scrub(t).text)
    ensures HasSecret(t) <==> Scrub(t).count > 0
    ensures !HasSecret(t) ==> Scrub(t).text == t
  {
    CleanIffNoSecret(t);
    CleanIffNoSecret(Scrub(t).text);
    NothingLeftToRedact(t);
    CleanTextPasses(t, |SECRET_PATTERNS|);
    ScrubUnfolds(t);
    hide *;
  }

  lemma {:induction false} ScrubUnfolds(t: string)
    ensures Scrub(t) == Passes(t, |SECRET_PATTERNS|)
    ensures AllClean(t) <==> forall m :: 0 <= m < |SECRET_PATTERNS| ==> Clean(SECRET_PATTERNS[m], t)
  {
    hide Passes, Clean, SECRET_PATTERNS;
  }
}
