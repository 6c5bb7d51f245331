// The base extension's block diff: strip the longest common prefix of lines, then the
// longest common suffix of what is left, and report the lines in between.
module BlockDiff {

  type Line = string

  datatype Block = NoBlock | Block(text: string, startLine: nat)

  // --- String.prototype.split('\n') and its inverse ---

  function Split(text: string): (lines: seq<Line>)
    ensures lines != []
  {
    if text == "" then [""]
    else
      var rest := Split(text[1..]);
      if text[0] == '\n' then [""] + rest else [[text[0]] + rest[0]] + rest[1..]
  }

  function Join(lines: seq<Line>): string {
    if lines == [] then "" else if |lines| == 1 then lines[0] else lines[0] + "\n" + Join(lines[1..])
  }

  lemma {:induction false} JoinSplit(text: string)
    ensures Join(Split(text)) == text
    ensures forall line <- Split(text) :: '\n' !in line
  {
    if text != "" {
      JoinSplit(text[1..]);
      var rest := Split(text[1..]);
      assert Split(text)[1..] == if text[0] == '\n' then rest else rest[1..];
    }
  }

  lemma {:induction false} SplitJoin(lines: seq<Line>)
    requires lines != [] && forall line <- lines :: '\n' !in line
    ensures Split(Join(lines)) == lines
    decreases |lines|, |lines[0]|
  {
    var text, first := Join(lines), lines[0];
    if first != "" {
      var shorter := [first[1..]] + lines[1..];
      forall line | line in shorter
        ensures '\n' !in line
      {
        assert line in lines || (line == first[1..] && forall c <- line :: c in first);
      }
      SplitJoin(shorter);
      assert shorter[1..] == lines[1..];
      assert text[1..] == Join(shorter);
      assert text[0] == first[0] && first[0] in first;
      assert [first[0]] + first[1..] == first;
    } else if |lines| > 1 {
      SplitJoin(lines[1..]);
      assert text == "\n" + Join(lines[1..]);
      assert text[1..] == Join(lines[1..]);
    }
  }

  // --- Common prefixes and suffixes ---

  // The first p lines and the last s lines agree, and neither text uses a line twice.
  ghost predicate Frames(before: seq<Line>, after: seq<Line>, p: nat, s: nat) {
    && p + s <= |before| && p + s <= |after|
    && before[..p] == after[..p]
    && before[|before| - s..] == after[|after| - s..]
  }

  ghost predicate MaximalPrefix(before: seq<Line>, after: seq<Line>, p: nat) {
    && p <= |before| && p <= |after| && before[..p] == after[..p]
    && (p == |before| || p == |after| || before[p] != after[p])
  }

  ghost predicate MaximalFrame(before: seq<Line>, after: seq<Line>, p: nat, s: nat) {
    && Frames(before, after, p, s) && MaximalPrefix(before, after, p)
    && (p + s == |before| || p + s == |after| || before[|before| - 1 - s] != after[|after| - 1 - s])
  }

  lemma MaximalPrefixIsLongest(before: seq<Line>, after: seq<Line>, p: nat, q: nat)
    requires MaximalPrefix(before, after, p)
    requires q <= |before| && q <= |after| && before[..q] == after[..q]
    ensures q <= p
  {
    forall k | 0 <= k < q
      ensures before[k] == after[k]
    {
      assert before[k] == before[..q][k] && after[k] == after[..q][k];
    }
  }

  // Taking the prefix first loses nothing: no other frame leaves fewer lines in between.
  lemma MaximalFrameIsTightest(before: seq<Line>, after: seq<Line>, p: nat, s: nat, p': nat, s': nat)
    requires MaximalFrame(before, after, p, s) && Frames(before, after, p', s')
    ensures p' + s' <= p + s
  {
    MaximalPrefixIsLongest(before, after, p, p');
    forall i | |before| - s' <= i < |before|
      ensures before[i] == after[i - |before| + |after|]
    {
      var k := i - |before| + s';
      assert before[|before| - s'..][k] == after[|after| - s'..][k];
    }
  }

  // after is before with zero or more consecutive lines taken out.
  ghost predicate IsDeletion(before: seq<Line>, after: seq<Line>) {
    exists p: nat, s: nat :: Frames(before, after, p, s) && p + s == |after|
  }

  // --- The imperative code ---

  // What the block is framed by: so many lines of the old text in front of it and behind it.
  ghost predicate Explains(oldLines: seq<Line>, newLines: seq<Line>, block: Block, suffix: nat)
    requires block.Block?
  {
    && MaximalFrame(oldLines, newLines, block.startLine, suffix)
    && newLines == oldLines[..block.startLine] + Split(block.text) + oldLines[|oldLines| - suffix..]
  }

  method InsertedBlock(before: string, after: string) returns (block: Block)
    ensures var (oldLines, newLines) := (Split(before), Split(after));
            && (block.NoBlock? <==> before == after || IsDeletion(oldLines, newLines))
            && (block.Block? ==> exists suffix: nat :: Explains(oldLines, newLines, block, suffix))
  {
    hide Split, Join;
    if before == after {
      return NoBlock;
    }
    var oldLines, newLines := Split(before), Split(after);
    var p := 0;
    while p < |oldLines| && p < |newLines| && oldLines[p] == newLines[p]
      invariant p <= |oldLines| && p <= |newLines| && oldLines[..p] == newLines[..p]
    {
      p := p + 1;
    }
    var s := 0;
    while s < |oldLines| - p && s < |newLines| - p && oldLines[|oldLines| - 1 - s] == newLines[|newLines| - 1 - s]
      invariant Frames(oldLines, newLines, p, s)
    {
      FrameGrows(oldLines, newLines, p, s);
      s := s + 1;
    }
    assert MaximalFrame(oldLines, newLines, p, s);
    var changed := newLines[p..|newLines| - s];
    if |changed| > 0 {
      JoinSplit(after);
      ChangedLines(oldLines, newLines, p, s);
      NotADeletion(oldLines, newLines, p, s);
      NullMeansNothingNew(before, after);
      block := Block(Join(changed), p);
      assert Explains(oldLines, newLines, block, s);
    } else {
      assert IsDeletion(oldLines, newLines);
      block := NoBlock;
    }
  }

  lemma FrameGrows(o: seq<Line>, n: seq<Line>, p: nat, s: nat)
    requires Frames(o, n, p, s) && p + s < |o| && p + s < |n| && o[|o| - 1 - s] == n[|n| - 1 - s]
    ensures Frames(o, n, p, s + 1)
  {
    assert o[|o| - 1 - s..] == [o[|o| - 1 - s]] + o[|o| - s..];
    assert n[|n| - 1 - s..] == [n[|n| - 1 - s]] + n[|n| - s..];
  }

  // The lines in between, joined and split again, complete the frame to the new text.
  lemma ChangedLines(o: seq<Line>, n: seq<Line>, p: nat, s: nat)
    requires Frames(o, n, p, s) && p + s < |n| && forall line <- n :: '\n' !in line
    ensures n == o[..p] + Split(Join(n[p..|n| - s])) + o[|o| - s..]
  {
    SplitJoin(n[p..|n| - s]);
    assert n == n[..p] + n[p..|n| - s] + n[|n| - s..];
  }

  lemma NotADeletion(o: seq<Line>, n: seq<Line>, p: nat, s: nat)
    requires MaximalFrame(o, n, p, s) && p + s < |n|
    ensures !IsDeletion(o, n)
  {
    forall p': nat, s': nat | Frames(o, n, p', s')
      ensures p' + s' < |n|
    {
      MaximalFrameIsTightest(o, n, p, s, p', s');
    }
  }

  // Equal texts are the deletion of no line, and a deletion that keeps the number of lines
  // keeps the text.
  lemma {:induction false} NullMeansNothingNew(before: string, after: string)
    ensures before == after ==> IsDeletion(Split(before), Split(after))
    ensures IsDeletion(Split(before), Split(after)) && |Split(before)| == |Split(after)| ==> before == after
  {
    JoinSplit(before);
    JoinSplit(after);
    if |Split(before)| == |Split(after)| {
      DeletionOfNothing(Split(before), Split(after));
    }
  }

  lemma DeletionOfNothing(o: seq<Line>, n: seq<Line>)
    requires |o| == |n|
    ensures o == n <==> IsDeletion(o, n)
  {
    if o == n {
      assert Frames(o, n, |n|, 0);
    }
    if p: nat, s: nat :| Frames(o, n, p, s) && p + s == |n| {
      assert o == o[..p] + o[|o| - s..] && n == n[..p] + n[|n| - s..];
    }
  }

  // The reported block is as short as any block that explains the change.
  lemma BlockIsShortest(o: seq<Line>, n: seq<Line>, p: nat, s: nat, p': nat, s': nat, block: seq<Line>)
    requires MaximalFrame(o, n, p, s)
    requires p' + s' <= |o| && n == o[..p'] + block + o[|o| - s'..]
    ensures |n[p..|n| - s]| <= |block|
  {
    assert n[..p'] == o[..p'] && n[|n| - s'..] == o[|o| - s'..];
    MaximalFrameIsTightest(o, n, p, s, p', s');
  }
}
