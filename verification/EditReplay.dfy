// The detector's replay of a multi-edit change event: edits sorted by offset are applied
// one after another to a working text, each shifted by the growth of the earlier ones.
module EditReplay {
  import opened StableSort

  datatype Change = Change(offset: nat, length: nat, text: string)

  datatype Chunk = Chunk(text: string, startOffset: int, endOffset: int, addedLines: nat, removedLines: nat)

  // What the replay loop carries: the working text, the growth so far, and what it reports.
  datatype State = State(text: string, offsetDelta: int, netAddedLines: int, chunks: seq<Chunk>)

  datatype Span = NoSpan | Span(startOffset: int, endOffset: int)

  // --- Library operations ---

  // String.prototype.slice: negative positions count from the end, the rest is clamped.
  function Position(text: string, p: int): (r: nat)
    ensures r <= |text|
    ensures 0 <= p <= |text| ==> r == p
  {
    if p < 0 then (if |text| + p < 0 then 0 else |text| + p) else if p > |text| then |text| else p
  }

  function Slice(text: string, from: int, to: int): string {
    var (f, t) := (Position(text, from), Position(text, to));
    if f <= t then text[f..t] else ""
  }

  // Matches of \r\n, \r or \n.
  function CountBreaks(text: string): nat {
    if text == "" then 0
    else if text[0] == '\r' && |text| > 1 && text[1] == '\n' then 1 + CountBreaks(text[2..])
    else if text[0] == '\r' || text[0] == '\n' then 1 + CountBreaks(text[1..])
    else CountBreaks(text[1..])
  }

  function CountApproximateLines(text: string): nat {
    if text == "" then 0
    else if text[|text| - 1] == '\n' || text[|text| - 1] == '\r' then CountBreaks(text)
    else CountBreaks(text) + 1
  }

  // A line ends at an LF, or at a CR that no LF follows.
  predicate EndsLine(text: string, k: nat)
    requires k < |text|
  {
    text[k] == '\n' || (text[k] == '\r' && (k + 1 == |text| || text[k + 1] != '\n'))
  }

  // How many lines end at position k or behind it.
  function LineEnds(text: string, k: nat): nat
    requires k <= |text|
    decreases |text| - k
  {
    if k == |text| then 0 else (if EndsLine(text, k) then 1 else 0) + LineEnds(text, k + 1)
  }

  lemma {:induction false} BreaksAreLineEnds(text: string, k: nat)
    requires k <= |text|
    ensures CountBreaks(text[k..]) == LineEnds(text, k)
    decreases |text| - k
  {
    if k < |text| {
      BreaksAreLineEnds(text, k + 1);
      assert text[k..][0] == text[k] && text[k..][1..] == text[k + 1..];
      if k + 1 < |text| {
        BreaksAreLineEnds(text, k + 2);
        assert text[k..][1] == text[k + 1] && text[k..][2..] == text[k + 2..];
      }
    }
  }

  // The lines of a text are its line ends, and one more for a last line without.
  lemma {:induction false} LinesAreCounted(text: string)
    ensures CountApproximateLines(text) ==
            LineEnds(text, 0) + if text != "" && text[|text| - 1] != '\n' && text[|text| - 1] != '\r' then 1 else 0
  {
    BreaksAreLineEnds(text, 0);
    assert text[0..] == text;
  }

  // Negative positions count from the end, and what is out of range is cut off.
  lemma SliceIsClamped(u: string, v: string, over: nat)
    requires v != ""
    ensures Slice(u + v, -|v|, |u + v|) == v && Slice(u + v, 0, -|v|) == u
    ensures Slice(v, -|v| - over, |v| + over) == v && Slice(v, |v| + over, |v|) == ""
  {
  }

  predicate ByOffset(left: Change, right: Change) {
    left.offset <= right.offset
  }

  // --- Sequential replay ---

  function Apply(s: State, c: Change): State {
    var start := c.offset + s.offsetDelta;
    var removed := Slice(s.text, start, start + c.length);
    State(Slice(s.text, 0, start) + c.text + Slice(s.text, start + c.length, |s.text|),
          s.offsetDelta + |c.text| - c.length,
          s.netAddedLines + CountApproximateLines(c.text) - CountApproximateLines(removed),
          if c.text == "" then s.chunks
          else s.chunks + [Chunk(c.text, start, start + |c.text|, CountApproximateLines(c.text),
                                 CountApproximateLines(removed))])
  }

  function ReplayFrom(s: State, changes: seq<Change>): State
    decreases changes
  {
    if changes == [] then s else ReplayFrom(Apply(s, changes[0]), changes[1..])
  }

  function Initial(original: string): State {
    State(original, 0, 0, [])
  }

  function Replay(original: string, changes: seq<Change>): State {
    ReplayFrom(Initial(original), Sort(ByOffset, changes))
  }

  // The working text is a local of the source; it is returned here as a ghost value.
  method ExtractInsertedChunks(oldText: string, changes: seq<Change>)
    returns (chunks: seq<Chunk>, netAddedLines: int, ghost finalText: string)
    ensures chunks == Replay(oldText, changes).chunks && netAddedLines == Replay(oldText, changes).netAddedLines
    ensures finalText == Replay(oldText, changes).text
  {
    hide Sort, Slice, CountApproximateLines;
    var sorted := Sort(ByOffset, changes);
    var workingText, offsetDelta := oldText, 0;
    chunks, netAddedLines := [], 0;
    var k := 0;
    while k < |sorted|
      invariant 0 <= k <= |sorted|
      invariant Replay(oldText, changes) ==
                ReplayFrom(State(workingText, offsetDelta, netAddedLines, chunks), sorted[k..])
    {
      var change := sorted[k];
      assert sorted[k..][0] == change && sorted[k..][1..] == sorted[k + 1..];
      ghost var s := State(workingText, offsetDelta, netAddedLines, chunks);
      var startOffset := change.offset + offsetDelta;
      var endOffset := startOffset + change.length;
      var removedText := Slice(workingText, startOffset, endOffset);
      var insertedText := change.text;
      var addedLines := CountApproximateLines(insertedText);
      var removedLines := CountApproximateLines(removedText);
      netAddedLines := netAddedLines + addedLines - removedLines;
      if |insertedText| > 0 {
        chunks := chunks + [Chunk(insertedText, startOffset, startOffset + |insertedText|, addedLines, removedLines)];
      }
      workingText := Slice(workingText, 0, startOffset) + insertedText + Slice(workingText, endOffset, |workingText|);
      offsetDelta := offsetDelta + |insertedText| - change.length;
      assert State(workingText, offsetDelta, netAddedLines, chunks) == Apply(s, change);
      k := k + 1;
    }
    finalText := workingText;
  }

  // --- Simultaneous replacement on the old text ---

  // The edits replace disjoint ranges of the old text, in the order of the sequence.
  ghost predicate Chain(changes: seq<Change>, from: nat, size: nat) {
    if changes == [] then from <= size
    else from <= changes[0].offset && Chain(changes[1..], changes[0].offset + changes[0].length, size)
  }

  function Patched(original: string, from: nat, changes: seq<Change>): string
    requires Chain(changes, from, |original|)
    decreases changes
  {
    if changes == [] then original[from..]
    else
      ChainFits(changes, from, |original|);
      var c := changes[0];
      original[from..c.offset] + c.text + Patched(original, c.offset + c.length, changes[1..])
  }

  lemma {:induction false} ChainFits(changes: seq<Change>, from: nat, size: nat)
    requires Chain(changes, from, size)
    ensures from <= size
    ensures changes != [] ==> from <= changes[0].offset && changes[0].offset + changes[0].length <= size
  {
    if changes != [] {
      ChainFits(changes[1..], changes[0].offset + changes[0].length, size);
    }
  }

  // Lines that the edits add, less the lines of the old text that they replace.
  function LineGain(original: string, from: nat, changes: seq<Change>): int
    requires Chain(changes, from, |original|)
    decreases changes
  {
    if changes == [] then 0
    else
      ChainFits(changes, from, |original|);
      var (c, next) := (changes[0], changes[0].offset + changes[0].length);
      CountApproximateLines(c.text) - CountApproximateLines(original[c.offset..next]) +
      LineGain(original, next, changes[1..])
  }

  // Each chunk holds its text at exactly its range of the text, and ranges follow each other.
  ghost predicate InPlace(chunks: seq<Chunk>, text: string) {
    && (forall k :: 0 <= k < |chunks| ==>
          && 0 <= chunks[k].startOffset <= chunks[k].endOffset <= |text|
          && text[chunks[k].startOffset..chunks[k].endOffset] == chunks[k].text)
    && (forall k, l :: 0 <= k < l < |chunks| ==> chunks[k].endOffset <= chunks[l].startOffset)
  }

  // The loop's state when everything before `from` has been patched into `done`.
  ghost predicate InStep(s: State, original: string, done: string, from: nat) {
    && from <= |original| && s.text == done + original[from..] && s.offsetDelta == |done| - from
    && InPlace(s.chunks, done)
  }

  // What an edit removes from the working text is its own range of the old text.
  lemma CutsOfWorkingText(s: State, c: Change, original: string, done: string, from: nat)
    requires InStep(s, original, done, from) && from <= c.offset && c.offset + c.length <= |original|
    ensures var start := c.offset + s.offsetDelta;
            && start == |done + original[from..c.offset]|
            && Slice(s.text, 0, start) == done + original[from..c.offset]
            && Slice(s.text, start, start + c.length) == original[c.offset..c.offset + c.length]
            && Slice(s.text, start + c.length, |s.text|) == original[c.offset + c.length..]
  {
    hide InPlace;
    var x, y, z := done + original[from..c.offset], original[c.offset..c.offset + c.length], original[c.offset + c.length..];
    assert s.text == x + y + z;
    SlicesOfThree(x, y, z);
  }

  lemma SlicesOfThree(x: string, y: string, z: string)
    ensures var t := x + y + z;
            Slice(t, 0, |x|) == x && Slice(t, |x|, |x| + |y|) == y && Slice(t, |x| + |y|, |t|) == z
  {
  }

  lemma InPlacePush(chunks: seq<Chunk>, text: string, gap: string, chunk: Chunk)
    requires InPlace(chunks, text)
    requires chunk.startOffset == |text + gap| && chunk.endOffset == |text + gap + chunk.text|
    ensures InPlace(chunks + [chunk], text + gap + chunk.text)
  {
    InPlaceGrows(chunks, text, gap + chunk.text);
    assert text + (gap + chunk.text) == text + gap + chunk.text;
    Between(text + gap, chunk.text, "");
    assert text + gap + chunk.text + "" == text + gap + chunk.text;
    assert forall k :: 0 <= k < |chunks| ==> chunks[k].endOffset <= |text|;
  }

  lemma Between(x: string, y: string, z: string)
    ensures (x + y + z)[|x|..|x| + |y|] == y
  {
  }

  lemma ApplyKeepsStep(s: State, c: Change, original: string, done: string, from: nat)
    requires InStep(s, original, done, from) && from <= c.offset && c.offset + c.length <= |original|
    ensures InStep(Apply(s, c), original, done + original[from..c.offset] + c.text, c.offset + c.length)
    ensures Apply(s, c).netAddedLines == s.netAddedLines +
              CountApproximateLines(c.text) - CountApproximateLines(original[c.offset..c.offset + c.length])
  {
    hide CountApproximateLines, Slice, InPlace;
    CutsOfWorkingText(s, c, original, done, from);
    var kept := done + original[from..c.offset];
    if c.text == "" {
      InPlaceGrows(s.chunks, done, original[from..c.offset]);
      assert kept + c.text == kept;
    } else {
      InPlacePush(s.chunks, done, original[from..c.offset], Apply(s, c).chunks[|s.chunks|]);
    }
  }

  lemma InPlaceGrows(chunks: seq<Chunk>, text: string, more: string)
    requires InPlace(chunks, text)
    ensures InPlace(chunks, text + more)
  {
    forall k | 0 <= k < |chunks|
      ensures (text + more)[chunks[k].startOffset..chunks[k].endOffset] == chunks[k].text
    {
      assert text[chunks[k].startOffset..chunks[k].endOffset] == chunks[k].text;
    }
  }

  // The replay stays in step with the patch: same text, chunks where they are reported, and the
  // removed slice of each edit is the old text's own.
  lemma {:induction false} ReplayIsPatch(s: State, original: string, done: string, from: nat, changes: seq<Change>)
    requires Chain(changes, from, |original|) && InStep(s, original, done, from)
    ensures var r := ReplayFrom(s, changes);
            && r.text == done + Patched(original, from, changes)
            && r.netAddedLines == s.netAddedLines + LineGain(original, from, changes)
            && InPlace(r.chunks, r.text)
    decreases changes
  {
    hide *;
    if changes == [] {
      NothingLeft(s, original, done, from);
    } else {
      var (c, next) := (changes[0], changes[0].offset + changes[0].length);
      PatchUnfolds(original, from, changes);
      ReplayStep(s, changes);
      ApplyKeepsStep(s, c, original, done, from);
      ReplayIsPatch(Apply(s, c), original, done + original[from..c.offset] + c.text, next, changes[1..]);
      Associate(done, original[from..c.offset], c.text, Patched(original, next, changes[1..]));
    }
  }

  lemma {:induction false} NothingLeft(s: State, original: string, done: string, from: nat)
    requires InStep(s, original, done, from)
    ensures Chain([], from, |original|) && ReplayFrom(s, []) == s && s.text == done + Patched(original, from, [])
    ensures LineGain(original, from, []) == 0 && OwnLines(original, from, []) == [] && InPlace(s.chunks, s.text)
  {
    InPlaceGrows(s.chunks, done, original[from..]);
  }

  lemma {:induction false} PatchUnfolds(original: string, from: nat, changes: seq<Change>)
    requires Chain(changes, from, |original|) && changes != []
    ensures var (c, next) := (changes[0], changes[0].offset + changes[0].length);
            && from <= c.offset && next <= |original| && Chain(changes[1..], next, |original|)
            && Patched(original, from, changes) ==
                 original[from..c.offset] + c.text + Patched(original, next, changes[1..])
            && LineGain(original, from, changes) ==
                 CountApproximateLines(c.text) - CountApproximateLines(original[c.offset..next]) +
                 LineGain(original, next, changes[1..])
  {
    ChainFits(changes, from, |original|);
  }

  lemma Associate(s: string, t: string, u: string, v: string)
    ensures s + t + u + v == s + (t + u + v)
  {
  }

  // Every edit that inserts something is reported, in offset order, and nothing else is.
  function InsertedTexts(changes: seq<Change>): seq<string> {
    if changes == [] then []
    else (if changes[0].text == "" then [] else [changes[0].text]) + InsertedTexts(changes[1..])
  }

  function ChunkTexts(chunks: seq<Chunk>): seq<string> {
    seq(|chunks|, k requires 0 <= k < |chunks| => chunks[k].text)
  }

  lemma {:induction false} EveryEditIsReported(s: State, changes: seq<Change>)
    ensures ChunkTexts(ReplayFrom(s, changes).chunks) == ChunkTexts(s.chunks) + InsertedTexts(changes)
    decreases changes
  {
    hide Slice, CountApproximateLines;
    if changes != [] {
      EveryEditIsReported(Apply(s, changes[0]), changes[1..]);
    }
  }

  // The line counts of one chunk: of its text, and of the slice of the old text that it replaces.
  datatype Lines = Lines(added: nat, removed: nat)

  function OwnLines(original: string, from: nat, changes: seq<Change>): seq<Lines>
    requires Chain(changes, from, |original|)
    decreases changes
  {
    if changes == [] then []
    else
      ChainFits(changes, from, |original|);
      var (c, next) := (changes[0], changes[0].offset + changes[0].length);
      (if c.text == "" then []
       else [Lines(CountApproximateLines(c.text), CountApproximateLines(original[c.offset..next]))]) +
      OwnLines(original, next, changes[1..])
  }

  function ChunkLines(chunks: seq<Chunk>): seq<Lines> {
    seq(|chunks|, k requires 0 <= k < |chunks| => Lines(chunks[k].addedLines, chunks[k].removedLines))
  }

  lemma {:induction false} OwnLinesUnfolds(original: string, from: nat, changes: seq<Change>)
    requires Chain(changes, from, |original|) && changes != []
    ensures var (c, next) := (changes[0], changes[0].offset + changes[0].length);
            && from <= c.offset && next <= |original| && Chain(changes[1..], next, |original|)
            && OwnLines(original, from, changes) ==
                 (if c.text == "" then []
                  else [Lines(CountApproximateLines(c.text), CountApproximateLines(original[c.offset..next]))]) +
                 OwnLines(original, next, changes[1..])
  {
    ChainFits(changes, from, |original|);
    hide CountApproximateLines;
  }

  lemma LinesOfApply(s: State, c: Change)
    ensures var start := c.offset + s.offsetDelta;
            ChunkLines(Apply(s, c).chunks) == ChunkLines(s.chunks) +
              if c.text == "" then []
              else [Lines(CountApproximateLines(c.text), CountApproximateLines(Slice(s.text, start, start + c.length)))]
  {
    hide CountApproximateLines, Slice;
  }

  lemma {:induction false} ReplayStep(s: State, changes: seq<Change>)
    requires changes != []
    ensures ReplayFrom(s, changes) == ReplayFrom(Apply(s, changes[0]), changes[1..])
  {
  }

  // Every chunk counts the lines of its own text and of its own slice of the old text.
  lemma {:induction false} ChunksCountTheirOwnLines(s: State, original: string, done: string, from: nat,
                                                    changes: seq<Change>)
    requires Chain(changes, from, |original|) && InStep(s, original, done, from)
    ensures ChunkLines(ReplayFrom(s, changes).chunks) == ChunkLines(s.chunks) + OwnLines(original, from, changes)
    decreases changes
  {
    hide *;
    if changes == [] {
      NothingLeft(s, original, done, from);
    } else {
      var (c, next) := (changes[0], changes[0].offset + changes[0].length);
      OwnLinesUnfolds(original, from, changes);
      ReplayStep(s, changes);
      CutsOfWorkingText(s, c, original, done, from);
      LinesOfApply(s, c);
      ApplyKeepsStep(s, c, original, done, from);
      ChunksCountTheirOwnLines(Apply(s, c), original, done + original[from..c.offset] + c.text, next, changes[1..]);
    }
  }

  // --- Edits as the editor hands them over, in any order ---

  ghost predicate Apart(earlier: Change, later: Change) {
    && (earlier.offset + earlier.length <= later.offset || later.offset + later.length <= earlier.offset)
    && (earlier.offset == later.offset ==> earlier.length == 0)
  }

  ghost predicate Separate(changes: seq<Change>) {
    forall i, j :: 0 <= i < j < |changes| ==> Apart(changes[i], changes[j])
  }

  ghost predicate InRange(changes: seq<Change>, size: nat) {
    forall c <- changes :: c.offset + c.length <= size
  }

  lemma {:induction false} InsertKeepsChain(x: Change, s: seq<Change>, from: nat, size: nat)
    requires Chain(s, from, size) && from <= x.offset && x.offset + x.length <= size
    requires forall y <- s :: Apart(x, y)
    ensures Chain(Insert(ByOffset, x, s), from, size)
    decreases s
  {
    if s != [] {
      assert Apart(x, s[0]);
      if ByOffset(x, s[0]) {
        assert ([x] + s)[1..] == s;
      } else {
        InsertKeepsChain(x, s[1..], s[0].offset + s[0].length, size);
      }
    }
  }

  lemma {:induction false} SortedIsChain(changes: seq<Change>, size: nat)
    requires Separate(changes) && InRange(changes, size)
    ensures Chain(Sort(ByOffset, changes), 0, size)
  {
    if changes != [] {
      SortedIsChain(changes[1..], size);
      var s := Sort(ByOffset, changes[1..]);
      forall y | y in s
        ensures Apart(changes[0], y)
      {
        SameMembers(s, changes[1..], y);
      }
      InsertKeepsChain(changes[0], s, 0, size);
    }
  }

  // In a chain every edit starts at or behind `from` and ends within the text.
  lemma {:induction false} ChainBounds(s: seq<Change>, from: nat, size: nat, y: Change)
    requires Chain(s, from, size) && y in s
    ensures from <= y.offset && y.offset + y.length <= size
    decreases s
  {
    ChainFits(s, from, size);
    if y != s[0] {
      ChainBounds(s[1..], s[0].offset + s[0].length, size, y);
    }
  }

  lemma {:induction false} InsertWasApart(x: Change, s: seq<Change>, from: nat, size: nat)
    requires Chain(Insert(ByOffset, x, s), from, size)
    ensures Chain(s, from, size) && x.offset + x.length <= size
    ensures forall y <- s :: Apart(x, y)
    decreases s
  {
    ChainFits(Insert(ByOffset, x, s), from, size);
    if s != [] {
      if ByOffset(x, s[0]) {
        assert ([x] + s)[1..] == s;
        forall y | y in s
          ensures Apart(x, y)
        {
          ChainBounds(s, x.offset + x.length, size, y);
        }
      } else {
        var next := s[0].offset + s[0].length;
        InsertWasApart(x, s[1..], next, size);
        assert x in multiset(Insert(ByOffset, x, s[1..]));
        ChainBounds(Insert(ByOffset, x, s[1..]), next, size, x);
      }
    }
  }

  // The old ranges follow each other in the replay's order exactly when the edits are separate.
  lemma {:induction false} ChainedIffSeparate(changes: seq<Change>, size: nat)
    ensures Chain(Sort(ByOffset, changes), 0, size) <==> Separate(changes) && InRange(changes, size)
  {
    if Separate(changes) && InRange(changes, size) {
      SortedIsChain(changes, size);
    }
    if changes != [] && Chain(Sort(ByOffset, changes), 0, size) {
      var s := Sort(ByOffset, changes[1..]);
      InsertWasApart(changes[0], s, 0, size);
      ChainedIffSeparate(changes[1..], size);
      forall y | y in changes[1..]
        ensures Apart(changes[0], y)
      {
        SameMembers(s, changes[1..], y);
      }
      assert forall c <- changes :: c == changes[0] || c in changes[1..];
    }
  }

  lemma InitialStep(original: string)
    ensures InStep(Initial(original), original, "", 0)
    ensures ChunkTexts(Initial(original).chunks) == [] && ChunkLines(Initial(original).chunks) == []
    ensures Initial(original).netAddedLines == 0
  {
    assert "" + original[0..] == original;
  }

  lemma {:induction false} ReplayUnfolds(original: string, changes: seq<Change>)
    ensures Replay(original, changes) == ReplayFrom(Initial(original), Sort(ByOffset, changes))
  {
  }

  // Replaying separate edits one by one is replacing all their ranges of the old text at once,
  // and every chunk is reported where it really is.
  lemma {:induction false} ReplayIsSimultaneous(original: string, changes: seq<Change>)
    requires Separate(changes) && InRange(changes, |original|)
    ensures var sorted := Sort(ByOffset, changes);
            var r := Replay(original, changes);
            && Chain(sorted, 0, |original|)
            && r.text == Patched(original, 0, sorted)
            && r.netAddedLines == LineGain(original, 0, sorted)
            && InPlace(r.chunks, r.text)
            && ChunkTexts(r.chunks) == InsertedTexts(sorted)
            && ChunkLines(r.chunks) == OwnLines(original, 0, sorted)
  {
    hide *;
    var sorted := Sort(ByOffset, changes);
    SortedIsChain(changes, |original|);
    var s := Initial(original);
    InitialStep(original);
    ReplayIsPatch(s, original, "", 0, sorted);
    EveryEditIsReported(s, sorted);
    ChunksCountTheirOwnLines(s, original, "", 0, sorted);
    ReplayUnfolds(original, changes);
    assert "" + Patched(original, 0, sorted) == Patched(original, 0, sorted);
  }

  // --- The order of the event does not matter ---

  ghost predicate Increasing(s: seq<Change>) {
    forall i, j :: 0 <= i < j < |s| ==> s[i].offset < s[j].offset
  }

  lemma {:induction false} IncreasingIsUnique(s: seq<Change>, t: seq<Change>)
    requires Increasing(s) && Increasing(t) && multiset(s) == multiset(t)
    ensures s == t
  {
    assert |multiset(s)| == |s| && |multiset(t)| == |t|;
    if s != [] {
      SameHead(s, t);
      assert s == [s[0]] + s[1..] && t == [t[0]] + t[1..];
      assert multiset(s[1..]) == multiset(s) - multiset{s[0]};
      assert multiset(t[1..]) == multiset(t) - multiset{t[0]};
      IncreasingIsUnique(s[1..], t[1..]);
    }
  }

  lemma SameHead(s: seq<Change>, t: seq<Change>)
    requires Increasing(s) && Increasing(t) && multiset(s) == multiset(t) && s != [] && t != []
    ensures s[0] == t[0]
  {
    SameMembers(s, t, s[0]);
    SameMembers(s, t, t[0]);
  }

  ghost predicate DistinctOffsets(changes: seq<Change>) {
    forall i, j :: 0 <= i < j < |changes| ==> changes[i].offset != changes[j].offset
  }

  lemma {:induction false} SortedIsIncreasing(changes: seq<Change>)
    requires DistinctOffsets(changes)
    ensures Increasing(Sort(ByOffset, changes))
  {
    if changes != [] {
      SortedIsIncreasing(changes[1..]);
      var s := Sort(ByOffset, changes[1..]);
      forall y | y in s
        ensures y.offset != changes[0].offset
      {
        SameMembers(s, changes[1..], y);
      }
      InsertIsIncreasing(changes[0], s);
    }
  }

  lemma {:induction false} InsertIsIncreasing(x: Change, s: seq<Change>)
    requires Increasing(s) && forall y <- s :: y.offset != x.offset
    ensures Increasing(Insert(ByOffset, x, s))
  {
    if s != [] && !ByOffset(x, s[0]) {
      InsertIsIncreasing(x, s[1..]);
      var r := Insert(ByOffset, x, s[1..]);
      forall y | y in r
        ensures s[0].offset < y.offset
      {
        assert y in multiset(r);
        assert y == x || y in s[1..];
      }
    }
  }

  lemma OrderDoesNotMatter(original: string, changes: seq<Change>, others: seq<Change>)
    requires multiset(changes) == multiset(others) && DistinctOffsets(changes)
    ensures Replay(original, changes) == Replay(original, others)
  {
    var s, t := Sort(ByOffset, changes), Sort(ByOffset, others);
    SortedIsIncreasing(changes);
    SortIsOrdered(ByOffset, others);
    PermutedIncreasing(s, t);
    IncreasingIsUnique(s, t);
  }

  lemma PermutedIncreasing(s: seq<Change>, t: seq<Change>)
    requires Increasing(s) && Ordered(ByOffset, t) && multiset(s) == multiset(t)
    ensures Increasing(t)
  {
    forall i, j | 0 <= i < j < |t|
      ensures t[i].offset < t[j].offset
    {
      assert ByOffset(t[i], t[j]);
      if t[i].offset == t[j].offset {
        SameMembers(s, t, t[i]);
        SameMembers(s, t, t[j]);
        assert t[i] == t[j];
        assert t == t[..i] + [t[i]] + t[i + 1..j] + [t[j]] + t[j + 1..];
        assert multiset(s)[t[i]] >= 2;
        IncreasingOccursOnce(s, t[i]);
      }
    }
  }

  lemma {:induction false} IncreasingOccursOnce(s: seq<Change>, x: Change)
    requires Increasing(s)
    ensures multiset(s)[x] <= 1
  {
    if s != [] {
      IncreasingOccursOnce(s[1..], x);
      assert s == [s[0]] + s[1..];
    }
  }

  // --- Where the code falls short ---

  datatype Range = Range(start: int, end: int)

  // The range of the working text that each edit's text takes when the replay applies it, with the
  // text grown by offsetDelta so far.
  function TakenRanges(offsetDelta: int, changes: seq<Change>): seq<Range>
    decreases changes
  {
    if changes == [] then []
    else
      var c := changes[0];
      [Range(c.offset + offsetDelta, c.offset + offsetDelta + |c.text|)] +
      TakenRanges(offsetDelta + |c.text| - c.length, changes[1..])
  }

  function ChunkRanges(chunks: seq<Chunk>): seq<Range> {
    seq(|chunks|, k requires 0 <= k < |chunks| => Range(chunks[k].startOffset, chunks[k].endOffset))
  }

  ghost predicate Follow(ranges: seq<Range>) {
    forall i, j :: 0 <= i && j == i + 1 < |ranges| ==> ranges[i].end <= ranges[j].start
  }

  lemma {:induction false} FollowIffChain(offsetDelta: int, changes: seq<Change>, size: nat)
    requires InRange(changes, size)
    ensures Follow(TakenRanges(offsetDelta, changes)) <==> changes == [] || Chain(changes, changes[0].offset, size)
    decreases changes
  {
    if changes != [] {
      var c := changes[0];
      assert c in changes;
      FollowIffChain(offsetDelta + |c.text| - c.length, changes[1..], size);
      FollowCons(TakenRanges(offsetDelta, changes)[0], TakenRanges(offsetDelta + |c.text| - c.length, changes[1..]));
      hide Follow;
    }
  }

  lemma FollowCons(r: Range, rest: seq<Range>)
    ensures Follow([r] + rest) <==> Follow(rest) && (rest != [] ==> r.end <= rest[0].start)
  {
    var all := [r] + rest;
    if Follow(all) {
      forall i, j | 0 <= i && j == i + 1 < |rest|
        ensures rest[i].end <= rest[j].start
      {
        assert all[i + 1].end <= all[j + 1].start;
      }
      if rest != [] {
        assert all[0].end <= all[1].start;
      }
    }
  }

  lemma RangesPush(chunks: seq<Chunk>, chunk: Chunk)
    ensures ChunkRanges(chunks + [chunk]) == ChunkRanges(chunks) + [Range(chunk.startOffset, chunk.endOffset)]
  {
  }

  lemma ApplyReports(s: State, c: Change) returns (chunk: Chunk)
    requires c.text != ""
    ensures chunk.startOffset == c.offset + s.offsetDelta && chunk.endOffset == chunk.startOffset + |c.text|
    ensures Apply(s, c).chunks == s.chunks + [chunk] && Apply(s, c).offsetDelta == s.offsetDelta + |c.text| - c.length
  {
    hide Slice, CountApproximateLines;
    chunk := Apply(s, c).chunks[|s.chunks|];
  }

  lemma {:induction false} ChunksAreTaken(s: State, changes: seq<Change>)
    requires forall c <- changes :: c.text != ""
    ensures ChunkRanges(ReplayFrom(s, changes).chunks) == ChunkRanges(s.chunks) + TakenRanges(s.offsetDelta, changes)
    decreases changes
  {
    hide Apply, ChunkRanges;
    if changes != [] {
      var c := changes[0];
      assert c in changes;
      var chunk := ApplyReports(s, c);
      RangesPush(s.chunks, chunk);
      ChunksAreTaken(Apply(s, c), changes[1..]);
    }
  }

  lemma {:induction false} SortedInRange(changes: seq<Change>, size: nat)
    requires InRange(changes, size)
    ensures InRange(Sort(ByOffset, changes), size)
    ensures (forall c <- changes :: c.text != "") ==> forall c <- Sort(ByOffset, changes) :: c.text != ""
  {
    var sorted := Sort(ByOffset, changes);
    hide Sort;
    forall c | c in sorted
      ensures c in changes
    {
      SameMembers(sorted, changes, c);
    }
  }

  lemma {:induction false} ChainFromItsHead(changes: seq<Change>, size: nat)
    ensures Chain(changes, 0, size) <==> changes == [] || Chain(changes, changes[0].offset, size)
  {
  }

  // The ranges that the replay gives its edits follow each other exactly when the edits are separate.
  lemma {:induction false} RangesFollowIffSeparate(original: string, changes: seq<Change>)
    requires InRange(changes, |original|)
    ensures Follow(TakenRanges(0, Sort(ByOffset, changes))) <==> Separate(changes)
  {
    hide *;
    var sorted := Sort(ByOffset, changes);
    SortedInRange(changes, |original|);
    FollowIffChain(0, sorted, |original|);
    ChainFromItsHead(sorted, |original|);
    ChainedIffSeparate(changes, |original|);
  }

  // Where every edit inserts something, these are the ranges that it reports.
  lemma ReportedRangesFollowIffSeparate(original: string, changes: seq<Change>)
    requires InRange(changes, |original|) && forall c <- changes :: c.text != ""
    ensures Follow(ChunkRanges(Replay(original, changes).chunks)) <==> Separate(changes)
  {
    var sorted := Sort(ByOffset, changes);
    assert ChunkRanges(Initial(original).chunks) == [] && Initial(original).offsetDelta == 0;
    hide *;
    SortedInRange(changes, |original|);
    ReplayUnfolds(original, changes);
    ChunksAreTaken(Initial(original), sorted);
    RangesFollowIffSeparate(original, changes);
    assert [] + TakenRanges(0, sorted) == TakenRanges(0, sorted);
  }

  // A replacement listed before an insertion at the same offset: the insertion lands behind the
  // growth of the replacement, or in front of its shrinkage, instead of before it. The text is
  // right exactly when what lies in between does not change places with the insertion visibly.
  lemma SameOffsetIsRightIff(original: string, offset: nat, length: nat, text: string, inserted: string)
    requires length > 0 && offset + length <= |original|
    ensures var w := original[..offset] + text + original[offset + length..];
            var at := Position(w, offset + |text| - length);
            var between := if at < offset then w[at..offset] else w[offset..at];
            var changes := [Change(offset, length, text), Change(offset, 0, inserted)];
            Replay(original, changes).text == original[..offset] + inserted + text + original[offset + length..]
            <==> between + inserted == inserted + between
  {
    hide *;
    var w := original[..offset] + text + original[offset + length..];
    var at := Position(w, offset + |text| - length);
    TwoAtOneOffset(original, Change(offset, length, text), Change(offset, 0, inserted));
    IntendedInsertion(original[..offset], text, original[offset + length..], inserted);
    if at < offset {
      InsertionsAgreeIff(w, at, offset, inserted);
    } else {
      InsertionsAgreeIff(w, offset, at, inserted);
    }
  }

  lemma IntendedInsertion(front: string, text: string, back: string, inserted: string)
    ensures var w := front + text + back;
            w[..|front|] + inserted + w[|front|..] == front + inserted + text + back
  {
    var w := front + text + back;
    assert w[..|front|] == front && w[|front|..] == text + back;
  }

  // The insertions of u at i and at j make the same text exactly if u commutes with what is between.
  lemma InsertionsAgreeIff(w: string, i: nat, j: nat, u: string)
    requires i <= j <= |w|
    ensures w[..i] + u + w[i..] == w[..j] + u + w[j..] <==> w[i..j] + u == u + w[i..j]
  {
    var b := w[i..j];
    assert w[..j] == w[..i] + b && w[i..] == b + w[j..];
    var left, right := w[..i] + u + w[i..], w[..j] + u + w[j..];
    assert left == w[..i] + (u + b) + w[j..] && right == w[..i] + (b + u) + w[j..];
    Between(w[..i], u + b, w[j..]);
    Between(w[..i], b + u, w[j..]);
    assert |u + b| == |b + u|;
  }

  lemma SortOfTwo(first: Change, second: Change)
    requires first.offset == second.offset
    ensures Sort(ByOffset, [first, second]) == [first, second]
  {
    assert [first, second][1..] == [second] && [second][1..] == [];
    assert Sort(ByOffset, []) == [];
    assert Sort(ByOffset, [second]) == Insert(ByOffset, second, []);
  }

  lemma {:induction false} ReplayOfTwo(s: State, first: Change, second: Change)
    ensures ReplayFrom(s, [first, second]) == Apply(Apply(s, first), second)
  {
    hide Apply;
    assert [first, second][1..] == [second] && [second][1..] == [];
    assert ReplayFrom(Apply(s, first), [second]) == ReplayFrom(Apply(Apply(s, first), second), []);
  }

  lemma InsertionText(s: State, c: Change)
    requires c.length == 0
    ensures var at := Position(s.text, c.offset + s.offsetDelta);
            Apply(s, c).text == s.text[..at] + c.text + s.text[at..]
  {
    hide CountApproximateLines;
  }

  lemma ReplacementText(original: string, c: Change)
    requires c.offset + c.length <= |original|
    ensures Apply(Initial(original), c).text == original[..c.offset] + c.text + original[c.offset + c.length..]
    ensures Apply(Initial(original), c).offsetDelta == |c.text| - c.length
  {
    hide CountApproximateLines;
  }

  lemma TwoAtOneOffset(original: string, first: Change, second: Change)
    requires first.offset == second.offset && second.length == 0 && first.offset + first.length <= |original|
    ensures var w := original[..first.offset] + first.text + original[first.offset + first.length..];
            var at := Position(w, first.offset + |first.text| - first.length);
            Replay(original, [first, second]).text == w[..at] + second.text + w[at..]
  {
    hide *;
    SortOfTwo(first, second);
    ReplayUnfolds(original, [first, second]);
    ReplayOfTwo(Initial(original), first, second);
    ReplacementText(original, first);
    InsertionText(Apply(Initial(original), first), second);
  }

  // So "I" put before "b" of "abc", which the same event replaces by "xyz", lands inside it.
  lemma SameOffsetGoesWrong()
    ensures !Separate([Change(1, 1, "xyz"), Change(1, 0, "I")])
    ensures Replay("abc", [Change(1, 1, "xyz"), Change(1, 0, "I")]).text == "axyIzc" != "aIxyzc"
  {
    var changes := [Change(1, 1, "xyz"), Change(1, 0, "I")];
    assert !Apart(changes[0], changes[1]);
    hide *;
    TwoAtOneOffset("abc", changes[0], changes[1]);
    TextOfExample();
  }

  lemma TextOfExample()
    ensures "abc"[..1] + "xyz" + "abc"[2..] == "axyzc" && Position("axyzc", 3) == 3
    ensures "axyzc"[..3] + "I" + "axyzc"[3..] == "axyIzc" != "aIxyzc"
  {
    assert "abc"[..1] == "a" && "abc"[2..] == "c";
    assert "axyzc"[..3] == "axy" && "axyzc"[3..] == "zc";
    assert "axyIzc"[1] != "aIxyzc"[1];
  }

  // --- The combined span ---

  method GetCombinedInsertionSpan(chunks: seq<Chunk>) returns (span: Span)
    ensures span.NoSpan? <==> chunks == []
    ensures span.Span? ==>
              && (forall c <- chunks :: span.startOffset <= c.startOffset && c.endOffset <= span.endOffset)
              && (exists c <- chunks :: c.startOffset == span.startOffset)
              && (exists c <- chunks :: c.endOffset == span.endOffset)
  {
    if |chunks| == 0 {
      return NoSpan;
    }
    var startOffset, endOffset := chunks[0].startOffset, chunks[0].endOffset;
    for k := 0 to |chunks|
      invariant forall l :: 0 <= l < k ==> startOffset <= chunks[l].startOffset && chunks[l].endOffset <= endOffset
      invariant exists c <- chunks :: c.startOffset == startOffset
      invariant exists c <- chunks :: c.endOffset == endOffset
    {
      if chunks[k].startOffset < startOffset {
        startOffset := chunks[k].startOffset;
      }
      if chunks[k].endOffset > endOffset {
        endOffset := chunks[k].endOffset;
      }
    }
    span := Span(startOffset, endOffset);
  }
}
