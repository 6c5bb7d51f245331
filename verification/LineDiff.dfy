// The inline diff of the provenance sidebar: an LCS table, filled in place, then a
// backtrack that emits context, removed and added lines from the end of both texts.
module LineDiff {

  type Line = string

  datatype Op<T> = Context(line: T) | Removed(line: T) | Added(line: T)

  function Init<T>(s: seq<T>): seq<T>
    requires s != []
  {
    s[..|s| - 1]
  }

  function Last<T>(s: seq<T>): T
    requires s != []
  {
    s[|s| - 1]
  }

  // --- What a script means ---

  // The text a script starts from, and the text it leads to.
  function Before<T>(ops: seq<Op<T>>): seq<T> {
    if ops == [] then []
    else Before(Init(ops)) + if Last(ops).Added? then [] else [Last(ops).line]
  }

  function After<T>(ops: seq<Op<T>>): seq<T> {
    if ops == [] then []
    else After(Init(ops)) + if Last(ops).Removed? then [] else [Last(ops).line]
  }

  function ContextLines<T>(ops: seq<Op<T>>): seq<T> {
    if ops == [] then []
    else ContextLines(Init(ops)) + if Last(ops).Context? then [Last(ops).line] else []
  }

  // The number of removed and added lines.
  function Edits<T>(ops: seq<Op<T>>): nat {
    if ops == [] then 0
    else Edits(Init(ops)) + if Last(ops).Context? then 0 else 1
  }

  ghost predicate IsScript<T>(ops: seq<Op<T>>, a: seq<T>, b: seq<T>) {
    Before(ops) == a && After(ops) == b
  }

  // at lists, in increasing order, positions of a that spell s.
  ghost predicate Embeds<T>(s: seq<T>, a: seq<T>, at: seq<nat>) {
    && |at| == |s|
    && (forall k :: 0 <= k < |at| ==> at[k] < |a| && a[at[k]] == s[k])
    && (forall k, l :: 0 <= k < l < |at| ==> at[k] < at[l])
  }

  ghost predicate IsSubsequence<T>(s: seq<T>, a: seq<T>) {
    exists at: seq<nat> :: Embeds(s, a, at)
  }

  // --- The specification functions ---

  // Length of a longest common subsequence of a's first i lines and b's first j.
  function Lcs<T(==)>(a: seq<T>, i: nat, b: seq<T>, j: nat): nat
    requires i <= |a| && j <= |b|
    decreases i + j
  {
    if i == 0 || j == 0 then 0
    else if a[i - 1] == b[j - 1] then Lcs(a, i - 1, b, j - 1) + 1
    else
      var up, left := Lcs(a, i - 1, b, j), Lcs(a, i, b, j - 1);
      if up >= left then up else left
  }

  // The last operation of the diff of those prefixes, ties included.
  function LastOp<T(==)>(a: seq<T>, i: nat, b: seq<T>, j: nat): Op<T>
    requires i <= |a| && j <= |b| && i + j > 0
  {
    if i == 0 then Added(b[j - 1])
    else if j == 0 then Removed(a[i - 1])
    else if a[i - 1] == b[j - 1] then Context(a[i - 1])
    else if Lcs(a, i - 1, b, j) >= Lcs(a, i, b, j - 1) then Removed(a[i - 1])
    else Added(b[j - 1])
  }

  function DiffOfPrefixes<T(==)>(a: seq<T>, i: nat, b: seq<T>, j: nat): seq<Op<T>>
    requires i <= |a| && j <= |b|
    decreases i + j
  {
    if i + j == 0 then []
    else
      var op := LastOp(a, i, b, j);
      DiffOfPrefixes(a, if op.Added? then i else i - 1, b, if op.Removed? then j else j - 1) + [op]
  }

  function Diff<T(==)>(a: seq<T>, b: seq<T>): seq<Op<T>> {
    DiffOfPrefixes(a, |a|, b, |b|)
  }

  // --- The diff is lossless and optimal ---

  lemma {:induction false} Push<T>(ops: seq<Op<T>>, op: Op<T>)
    ensures Before(ops + [op]) == Before(ops) + if op.Added? then [] else [op.line]
    ensures After(ops + [op]) == After(ops) + if op.Removed? then [] else [op.line]
    ensures ContextLines(ops + [op]) == ContextLines(ops) + if op.Context? then [op.line] else []
  {
    assert Init(ops + [op]) == ops;
  }

  lemma LastOpFits<T>(a: seq<T>, i: nat, b: seq<T>, j: nat)
    requires i <= |a| && j <= |b| && i + j > 0
    ensures var op := LastOp(a, i, b, j);
            && (!op.Added? ==> i > 0) && (!op.Removed? ==> j > 0)
            && a[..i] == (if op.Added? then a[..i] + [] else a[..i - 1] + [op.line])
            && b[..j] == (if op.Removed? then b[..j] + [] else b[..j - 1] + [op.line])
  {
    hide Lcs;
  }

  lemma {:induction false} PrefixesAreLossless<T>(a: seq<T>, i: nat, b: seq<T>, j: nat)
    requires i <= |a| && j <= |b|
    ensures IsScript(DiffOfPrefixes(a, i, b, j), a[..i], b[..j])
    decreases i + j
  {
    if i + j > 0 {
      var op := LastOp(a, i, b, j);
      LastOpFits(a, i, b, j);
      hide LastOp, Before, After;
      var i', j' := if op.Added? then i else i - 1, if op.Removed? then j else j - 1;
      PrefixesAreLossless(a, i', b, j');
      Push(DiffOfPrefixes(a, i', b, j'), op);
    }
  }

  lemma {:induction false} KeepsLcsLines<T>(a: seq<T>, i: nat, b: seq<T>, j: nat)
    requires i <= |a| && j <= |b|
    ensures |ContextLines(DiffOfPrefixes(a, i, b, j))| == Lcs(a, i, b, j)
    decreases i + j
  {
    if i + j > 0 {
      var op := LastOp(a, i, b, j);
      var i', j' := if op.Added? then i else i - 1, if op.Removed? then j else j - 1;
      KeepsLcsLines(a, i', b, j');
      Push(DiffOfPrefixes(a, i', b, j'), op);
    }
  }

  // Removed and context lines spell the old text, added and context lines the new one.
  lemma DiffIsLossless<T>(a: seq<T>, b: seq<T>)
    ensures IsScript(Diff(a, b), a, b)
  {
    PrefixesAreLossless(a, |a|, b, |b|);
    assert a[..|a|] == a && b[..|b|] == b;
  }

  // Lcs is an upper bound: no common subsequence is longer.
  lemma {:induction false} LcsIsAnUpperBound<T>(s: seq<T>, a: seq<T>, i: nat, p: seq<nat>, b: seq<T>, j: nat, q: seq<nat>)
    requires i <= |a| && j <= |b|
    requires Embeds(s, a[..i], p) && Embeds(s, b[..j], q)
    ensures |s| <= Lcs(a, i, b, j)
    decreases i + j
  {
    if s != [] {
      assert Last(p) < i && Last(q) < j;
      if a[i - 1] == b[j - 1] {
        LcsIsAnUpperBound(Init(s), a, i - 1, Init(p), b, j - 1, Init(q));
      } else if Last(p) == i - 1 {
        assert Last(q) < j - 1;
        LcsIsAnUpperBound(s, a, i, p, b, j - 1, q);
      } else {
        LcsIsAnUpperBound(s, a, i - 1, p, b, j, q);
      }
    }
  }

  lemma SubsequenceGrows<T>(s: seq<T>, a: seq<T>, x: T)
    requires IsSubsequence(s, a)
    ensures IsSubsequence(s, a + [x]) && IsSubsequence(s + [x], a + [x])
  {
    var p: seq<nat> :| Embeds(s, a, p);
    assert Embeds(s, a + [x], p);
    assert Embeds(s + [x], a + [x], p + [|a|]);
  }

  // A script's context lines are a common subsequence of its two texts.
  lemma {:induction false} ContextIsCommon<T>(ops: seq<Op<T>>)
    ensures IsSubsequence(ContextLines(ops), Before(ops))
    ensures IsSubsequence(ContextLines(ops), After(ops))
  {
    if ops == [] {
      assert Embeds<T>([], [], []);
    } else {
      ContextIsCommon(Init(ops));
      var c, x := ContextLines(Init(ops)), Last(ops).line;
      SubsequenceGrows(c, Before(Init(ops)), x);
      SubsequenceGrows(c, After(Init(ops)), x);
      assert Before(Init(ops)) + [] == Before(Init(ops)) && After(Init(ops)) + [] == After(Init(ops)) && c + [] == c;
    }
  }

  // The context lines are a longest common subsequence of the two texts.
  lemma ContextIsLongestCommon<T>(a: seq<T>, b: seq<T>, s: seq<T>)
    requires IsSubsequence(s, a) && IsSubsequence(s, b)
    ensures var c := ContextLines(Diff(a, b));
            IsSubsequence(c, a) && IsSubsequence(c, b) && |s| <= |c|
  {
    DiffIsLossless(a, b);
    ContextIsCommon(Diff(a, b));
    KeepsLcsLines(a, |a|, b, |b|);
    var p: seq<nat> :| Embeds(s, a, p);
    var q: seq<nat> :| Embeds(s, b, q);
    assert a[..|a|] == a && b[..|b|] == b;
    LcsIsAnUpperBound(s, a, |a|, p, b, |b|, q);
  }

  lemma {:induction false} EditsCount<T>(ops: seq<Op<T>>)
    ensures Edits(ops) == |Before(ops)| + |After(ops)| - 2 * |ContextLines(ops)|
  {
    if ops != [] {
      EditsCount(Init(ops));
    }
  }

  // No script between the two texts has fewer removed and added lines.
  lemma {:induction false} DiffIsMinimal<T>(ops: seq<Op<T>>, a: seq<T>, b: seq<T>)
    requires IsScript(ops, a, b)
    ensures Edits(Diff(a, b)) <= Edits(ops)
  {
    DiffIsLossless(a, b);
    ContextIsCommon(ops);
    ContextIsLongestCommon(a, b, ContextLines(ops));
    EditsCount(ops);
    EditsCount(Diff(a, b));
  }

  // Ties go to the removed line, read from the end, so in reading order an added
  // line never follows a removed one directly.
  lemma {:induction false} AddedComesFirst<T>(a: seq<T>, i: nat, b: seq<T>, j: nat, k: nat)
    requires i <= |a| && j <= |b|
    requires k + 1 < |DiffOfPrefixes(a, i, b, j)|
    ensures var d := DiffOfPrefixes(a, i, b, j); !(d[k].Removed? && d[k + 1].Added?)
    decreases i + j
  {
    var op := LastOp(a, i, b, j);
    var i', j' := if op.Added? then i else i - 1, if op.Removed? then j else j - 1;
    var d' := DiffOfPrefixes(a, i', b, j');
    assert d' + [op] == DiffOfPrefixes(a, i, b, j);
    if k + 1 < |d'| {
      AddedComesFirst(a, i', b, j', k);
    } else if op.Added? && i > 0 && j' > 0 {
      LcsGrows(a, i - 1, b, j');
    }
  }

  lemma {:induction false} LcsGrows<T>(a: seq<T>, i: nat, b: seq<T>, j: nat)
    requires i <= |a| && j < |b|
    ensures Lcs(a, i, b, j) <= Lcs(a, i, b, j + 1)
  {
    PrefixesAreLossless(a, i, b, j);
    KeepsLcsLines(a, i, b, j);
    var c := ContextLines(DiffOfPrefixes(a, i, b, j));
    ContextIsCommon(DiffOfPrefixes(a, i, b, j));
    var p: seq<nat> :| Embeds(c, a[..i], p);
    var q: seq<nat> :| Embeds(c, b[..j], q);
    assert Embeds(c, b[..j + 1], q);
    LcsIsAnUpperBound(c, a, i, p, b, j + 1, q);
  }

  // --- Splitting a text into lines ---

  // The split at \r\n, \r or \n, whichever matches first at each position.
  function Pieces(text: string): (r: seq<Line>)
    ensures r != []
  {
    if text == "" then [""]
    else if text[0] == '\r' && |text| > 1 && text[1] == '\n' then [""] + Pieces(text[2..])
    else if text[0] == '\r' || text[0] == '\n' then [""] + Pieces(text[1..])
    else
      var rest := Pieces(text[1..]);
      [[text[0]] + rest[0]] + rest[1..]
  }

  function SplitLines(text: string): seq<Line> {
    if text == "" then [] else Pieces(text)
  }

  function Join(lines: seq<Line>): string {
    if lines == [] then "" else if |lines| == 1 then lines[0] else lines[0] + "\n" + Join(lines[1..])
  }

  // The text with every line break written as \n.
  function Unified(text: string): string {
    if text == "" then ""
    else if text[0] == '\r' && |text| > 1 && text[1] == '\n' then "\n" + Unified(text[2..])
    else if text[0] == '\r' then "\n" + Unified(text[1..])
    else [text[0]] + Unified(text[1..])
  }

  lemma {:induction false} JoinCons(line: Line, rest: seq<Line>)
    requires rest != []
    ensures Join([line] + rest) == line + "\n" + Join(rest)
  {
    assert ([line] + rest)[1..] == rest;
  }

  lemma {:induction false} JoinGrow(c: char, rest: seq<Line>)
    requires rest != []
    ensures Join([[c] + rest[0]] + rest[1..]) == [c] + Join(rest)
  {
    assert ([[c] + rest[0]] + rest[1..])[1..] == rest[1..];
  }

  lemma {:induction false} PiecesJoin(text: string)
    ensures Join(Pieces(text)) == Unified(text)
  {
    hide Join;
    if text == "" {
      assert Join([""]) == "" by {
        EmptyJoins();
      }
    } else if text[0] == '\r' && |text| > 1 && text[1] == '\n' {
      PiecesJoin(text[2..]);
      JoinCons("", Pieces(text[2..]));
    } else if text[0] == '\r' || text[0] == '\n' {
      PiecesJoin(text[1..]);
      JoinCons("", Pieces(text[1..]));
    } else {
      PiecesJoin(text[1..]);
      JoinGrow(text[0], Pieces(text[1..]));
    }
  }

  lemma EmptyJoins()
    ensures Join([""]) == ""
  {
  }

  lemma {:induction false} PiecesHaveNoBreaks(text: string)
    ensures forall line <- Pieces(text) :: '\n' !in line && '\r' !in line
  {
    if text != "" {
      PiecesHaveNoBreaks(text[1..]);
      if |text| > 1 {
        PiecesHaveNoBreaks(text[2..]);
      }
    }
  }

  lemma {:induction false} JoinPieces(text: string)
    ensures Join(Pieces(text)) == Unified(text)
    ensures forall line <- Pieces(text) :: '\n' !in line && '\r' !in line
  {
    PiecesJoin(text);
    PiecesHaveNoBreaks(text);
    hide *;
  }

  // --- What a line is ---

  ghost predicate NoBreaks(line: Line) {
    forall k :: 0 <= k < |line| ==> line[k] != '\n' && line[k] != '\r'
  }

  // The lines with a line break behind each but the last.
  function Woven(lines: seq<Line>, breaks: seq<Line>): string
    requires |lines| == |breaks| + 1
  {
    if breaks == [] then lines[0] else lines[0] + breaks[0] + Woven(lines[1..], breaks[1..])
  }

  // Line breaks are CRLF, LF and CR, and no CR stands right in front of an LF that is another break.
  ghost predicate WellWoven(lines: seq<Line>, breaks: seq<Line>) {
    && |lines| == |breaks| + 1
    && (forall k :: 0 <= k < |lines| ==> NoBreaks(lines[k]))
    && (forall k :: 0 <= k < |breaks| ==> breaks[k] == "\r\n" || breaks[k] == "\n" || breaks[k] == "\r")
    && (forall k, l :: 0 <= k && l == k + 1 < |breaks| && breaks[k] == "\r" && lines[l] == "" ==> breaks[l] != "\n")
  }

  lemma {:induction false} PiecesOfLine(line: Line, rest: string)
    requires NoBreaks(line)
    ensures Pieces(line + rest) == [line + Pieces(rest)[0]] + Pieces(rest)[1..]
    decreases line
  {
    var first := Pieces(rest)[0];
    if line == "" {
      assert line + rest == rest && line + first == first;
    } else {
      assert (line + rest)[0] == line[0] && (line + rest)[1..] == line[1..] + rest;
      PiecesOfLine(line[1..], rest);
      assert [line[0]] + (line[1..] + first) == line + first;
    }
  }

  lemma {:induction false} PiecesBehindBreak(b: Line, rest: string)
    requires b == "\r\n" || b == "\n" || (b == "\r" && (rest == "" || rest[0] != '\n'))
    ensures Pieces(b + rest) == [""] + Pieces(rest)
  {
    if b == "\r\n" {
      assert (b + rest)[2..] == rest;
    } else {
      assert (b + rest)[1..] == rest;
    }
  }

  lemma {:induction false} PiecesOfOne(line: Line)
    requires NoBreaks(line)
    ensures Pieces(line) == [line]
  {
    PiecesOfLine(line, "");
    assert line + "" == line;
  }

  lemma {:induction false} PiecesPush(line: Line, b: Line, rest: string)
    requires NoBreaks(line)
    requires b == "\r\n" || b == "\n" || (b == "\r" && (rest == "" || rest[0] != '\n'))
    ensures Pieces(line + (b + rest)) == [line] + Pieces(rest)
  {
    PiecesBehindBreak(b, rest);
    PiecesOfLine(line, b + rest);
    hide Pieces;
    assert line + "" == line;
  }

  lemma WovenTail(lines: seq<Line>, breaks: seq<Line>)
    requires WellWoven(lines, breaks) && breaks != []
    ensures WellWoven(lines[1..], breaks[1..])
    ensures breaks[0] == "\r" ==>
              var rest := Woven(lines[1..], breaks[1..]); rest == "" || rest[0] != '\n'
  {
    assert NoBreaks(lines[1]);
  }

  // Splitting gives back exactly the lines that any line breaks were put between.
  lemma {:induction false} PiecesOfWoven(lines: seq<Line>, breaks: seq<Line>)
    requires WellWoven(lines, breaks)
    ensures Pieces(Woven(lines, breaks)) == lines
    decreases breaks
  {
    hide Pieces;
    if breaks == [] {
      PiecesOfOne(lines[0]);
    } else {
      var rest := Woven(lines[1..], breaks[1..]);
      WovenTail(lines, breaks);
      PiecesOfWoven(lines[1..], breaks[1..]);
      assert NoBreaks(lines[0]);
      PiecesPush(lines[0], breaks[0], rest);
      assert Woven(lines, breaks) == lines[0] + (breaks[0] + rest);
      hide WellWoven;
    }
  }

  // Only the empty text has no line; so against it every line is an addition or a removal.
  lemma OnlyTheEmptyTextHasNoLines(text: string)
    ensures SplitLines(text) == [] <==> text == ""
    ensures Edits(Diff(SplitLines(""), SplitLines(text))) == |SplitLines(text)|
  {
    var a, b := SplitLines(""), SplitLines(text);
    DiffIsLossless(a, b);
    EditsCount(Diff(a, b));
    KeepsLcsLines(a, 0, b, |b|);
    assert Lcs(a, 0, b, |b|) == 0 && Diff(a, b) == DiffOfPrefixes(a, 0, b, |b|);
    hide Diff, Edits, Pieces;
  }

  // Both texts can be read back from the shown diff, up to the kind of line break.
  lemma {:induction false} TextsSurviveTheDiff(beforeText: string, afterText: string)
    ensures var d := Diff(SplitLines(beforeText), SplitLines(afterText));
            Join(Before(d)) == Unified(beforeText) && Join(After(d)) == Unified(afterText)
  {
    DiffIsLossless(SplitLines(beforeText), SplitLines(afterText));
    JoinPieces(beforeText);
    JoinPieces(afterText);
  }

  // --- The imperative code ---

  method BuildLcsTable<T(==)>(left: seq<T>, right: seq<T>) returns (table: array2<nat>)
    ensures fresh(table)
    ensures table.Length0 == |left| + 1 && table.Length1 == |right| + 1
    ensures forall i, j :: 0 <= i <= |left| && 0 <= j <= |right| ==> table[i, j] == Lcs(left, i, right, j)
  {
    table := new nat[|left| + 1, |right| + 1]((_, _) => 0);
    var i := 1;
    while i <= |left|
      invariant 1 <= i <= |left| + 1
      invariant forall l :: 0 <= l <= |left| ==> table[l, 0] == 0
      invariant forall l, r :: 0 <= l < i && 0 <= r <= |right| ==> table[l, r] == Lcs(left, l, right, r)
    {
      FillRow(left, right, table, i);
      i := i + 1;
    }
  }

  // The inner loop: row i from row i - 1.
  method FillRow<T(==)>(left: seq<T>, right: seq<T>, table: array2<nat>, i: nat)
    requires table.Length0 == |left| + 1 && table.Length1 == |right| + 1
    requires 1 <= i <= |left| && table[i, 0] == 0
    requires forall l, r :: 0 <= l < i && 0 <= r <= |right| ==> table[l, r] == Lcs(left, l, right, r)
    modifies table
    ensures forall r :: 0 <= r <= |right| ==> table[i, r] == Lcs(left, i, right, r)
    ensures forall l, r :: 0 <= l <= |left| && l != i && 0 <= r <= |right| ==> table[l, r] == old(table[l, r])
    ensures table[i, 0] == 0
  {
    var j := 1;
    while j <= |right|
      invariant 1 <= j <= |right| + 1
      invariant forall r :: 0 <= r < j ==> table[i, r] == Lcs(left, i, right, r)
      invariant forall l, r :: 0 <= l <= |left| && l != i && 0 <= r <= |right| ==> table[l, r] == old(table[l, r])
    {
      if left[i - 1] == right[j - 1] {
        table[i, j] := table[i - 1, j - 1] + 1;
      } else {
        table[i, j] := if table[i - 1, j] >= table[i, j - 1] then table[i - 1, j] else table[i, j - 1];
      }
      j := j + 1;
    }
  }

  function Reverse<T>(s: seq<T>): (r: seq<T>)
    ensures |r| == |s|
  {
    if s == [] then [] else [Last(s)] + Reverse(Init(s))
  }

  lemma {:induction false} ReversePush<T>(front: seq<T>, s: seq<T>, x: T)
    ensures front + Reverse(s + [x]) == (front + [x]) + Reverse(s)
  {
    assert Init(s + [x]) == s;
  }

  method Backtrack<T(==)>(beforeLines: seq<T>, afterLines: seq<T>) returns (operations: seq<Op<T>>)
    ensures operations == Diff(beforeLines, afterLines)
  {
    var table := BuildLcsTable(beforeLines, afterLines);
    var i: nat, j: nat := |beforeLines|, |afterLines|;
    operations := [];
    while i > 0 && j > 0
      invariant i <= |beforeLines| && j <= |afterLines|
      invariant Diff(beforeLines, afterLines) == DiffOfPrefixes(beforeLines, i, afterLines, j) + Reverse(operations)
      modifies {}
    {
      var op;
      ghost var i0, j0 := i, j;
      if beforeLines[i - 1] == afterLines[j - 1] {
        op := Context(beforeLines[i - 1]);
        i, j := i - 1, j - 1;
      } else if table[i - 1, j] >= table[i, j - 1] {
        op := Removed(beforeLines[i - 1]);
        i := i - 1;
      } else {
        op := Added(afterLines[j - 1]);
        j := j - 1;
      }
      assert op == LastOp(beforeLines, i0, afterLines, j0);
      ReversePush(DiffOfPrefixes(beforeLines, i, afterLines, j), operations, op);
      operations := operations + [op];
    }
    while i > 0
      invariant i <= |beforeLines| && j <= |afterLines| && (i == 0 || j == 0)
      invariant Diff(beforeLines, afterLines) == DiffOfPrefixes(beforeLines, i, afterLines, j) + Reverse(operations)
    {
      var op := Removed(beforeLines[i - 1]);
      i := i - 1;
      ReversePush(DiffOfPrefixes(beforeLines, i, afterLines, j), operations, op);
      operations := operations + [op];
    }
    while j > 0
      invariant i == 0 && j <= |afterLines|
      invariant Diff(beforeLines, afterLines) == DiffOfPrefixes(beforeLines, i, afterLines, j) + Reverse(operations)
    {
      var op := Added(afterLines[j - 1]);
      j := j - 1;
      ReversePush(DiffOfPrefixes(beforeLines, i, afterLines, j), operations, op);
      operations := operations + [op];
    }
    operations := Reverse(operations);
  }

  method ComputeInlineDiff(beforeText: string, afterText: string) returns (operations: seq<Op<Line>>)
    ensures operations == Diff(SplitLines(beforeText), SplitLines(afterText))
  {
    operations := Backtrack(SplitLines(beforeText), SplitLines(afterText));
  }
}
