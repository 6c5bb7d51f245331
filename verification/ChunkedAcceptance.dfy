// What the chunked reader accepts and why it refuses, said of the bytes of the stream.
module ChunkedAcceptance {
  import opened ChunkedBody

  // --- Chunks on the bytes ---

  // data[pos..start] is a whole line: up to the first LF, or to the end where there is none.
  ghost predicate IsLine(data: seq<byte>, pos: nat, start: nat) {
    && pos < start <= |data|
    && (forall k :: pos <= k < start - 1 ==> data[k] != 10)
    && (start < |data| ==> data[start - 1] == 10)
  }

  // A chunk line begins at `line` and names the size of the `size` bytes at `start`.
  datatype Cut = Cut(line: nat, start: nat, size: nat)

  // A line that is not blank and names its size.
  ghost predicate NamesSize(data: seq<byte>, c: Cut) {
    && IsLine(data, c.line, c.start) && data[c.line..c.start] != [10] && data[c.line..c.start] != [13, 10]
    && ParseHex(SizeText(data[c.line..c.start])) == Size(c.size)
  }

  // A chunk of at least one byte, with its line end behind it.
  ghost predicate IsChunk(data: seq<byte>, c: Cut) {
    && NamesSize(data, c) && c.size > 0 && Next(c) <= |data|
    && data[c.start + c.size] == 13 && data[c.start + c.size + 1] == 10
  }

  function Next(c: Cut): nat {
    c.start + c.size + 2
  }

  // Chunks one behind the other from pos to end.
  ghost predicate Chunks(data: seq<byte>, pos: nat, cuts: seq<Cut>, end: nat)
    decreases cuts
  {
    if cuts == [] then pos == end
    else cuts[0].line == pos && IsChunk(data, cuts[0]) && Chunks(data, Next(cuts[0]), cuts[1..], end)
  }

  function Piece(data: seq<byte>, c: Cut): seq<byte> {
    if c.start + c.size <= |data| then data[c.start..c.start + c.size] else []
  }

  function BodyOf(data: seq<byte>, cuts: seq<Cut>): seq<byte> {
    if cuts == [] then [] else Piece(data, cuts[0]) + BodyOf(data, cuts[1..])
  }

  function SizeOf(cuts: seq<Cut>): nat {
    if cuts == [] then 0 else cuts[0].size + SizeOf(cuts[1..])
  }

  // --- Where the reader stops, and why ---

  // A line that names no size.
  ghost predicate NamesNoSize(data: seq<byte>, pos: nat, start: nat) {
    IsLine(data, pos, start) && ParseHex(SizeText(data[pos..start])).NoSize?
  }

  // A chunk with something else than a line end behind it.
  ghost predicate NotTerminated(data: seq<byte>, c: Cut) {
    && NamesSize(data, c) && c.size > 0 && Next(c) <= |data|
    && (data[c.start + c.size] != 13 || data[c.start + c.size + 1] != 10)
  }

  // A chunk that the stream does not hold to its end.
  ghost predicate CutShort(data: seq<byte>, c: Cut) {
    NamesSize(data, c) && c.size > 0 && Next(c) > |data|
  }

  // The end of the stream, or a blank line.
  ghost predicate NothingNamed(data: seq<byte>, pos: nat) {
    || pos == |data|
    || (pos < |data| && data[pos] == 10)
    || (pos + 1 < |data| && data[pos] == 13 && data[pos + 1] == 10)
  }

  // At pos, after `seen` bytes, the reader has this result.
  ghost predicate Stops(data: seq<byte>, pos: nat, seen: nat, max: nat, result: Result) {
    match result
    case Ok(_) => exists c: Cut :: c.line == pos && c.size == 0 && NamesSize(data, c)
    case Err(error) =>
      match error
      case UnexpectedEnd => NothingNamed(data, pos)
      case InvalidChunk => (exists start: nat :: NamesNoSize(data, pos, start)) ||
                           (exists c: Cut :: c.line == pos && NotTerminated(data, c))
      case IncompleteRead => exists c: Cut :: c.line == pos && CutShort(data, c)
      case TooLarge => exists c: Cut :: c.line == pos && IsChunk(data, c) && seen + c.size > max
      case InvalidLength => false
  }

  // --- The line reader ---

  lemma {:induction false} LineAtIsLine(data: seq<byte>, pos: nat)
    requires pos < |data|
    ensures var line := LineAt(data, pos); IsLine(data, pos, pos + |line|) && line == data[pos..pos + |line|]
    decreases |data| - pos
  {
    if data[pos] == LF {
      assert LineAt(data, pos) == [LF] == data[pos..pos + 1];
    } else if pos + 1 < |data| {
      LineAtIsLine(data, pos + 1);
      LineGrows(data, pos, pos + 1 + |LineAt(data, pos + 1)|);
      hide LineAt;
    } else {
      assert LineAt(data, pos + 1) == [];
      assert LineAt(data, pos) == [data[pos]] == data[pos..pos + 1];
    }
  }

  lemma LineGrows(data: seq<byte>, pos: nat, start: nat)
    requires pos < |data| && data[pos] != 10 && IsLine(data, pos + 1, start)
    ensures IsLine(data, pos, start) && [data[pos]] + data[pos + 1..start] == data[pos..start]
  {
  }

  lemma LineIsUnique(data: seq<byte>, pos: nat, start: nat, end: nat)
    requires IsLine(data, pos, start) && IsLine(data, pos, end)
    ensures start == end
  {
    var last, otherLast := data[start - 1], data[end - 1];
  }

  lemma {:induction false} LineIsRead(data: seq<byte>, pos: nat, start: nat)
    requires IsLine(data, pos, start)
    ensures LineAt(data, pos) == data[pos..start]
  {
    LineAtIsLine(data, pos);
    LineIsUnique(data, pos, start, pos + |LineAt(data, pos)|);
    hide LineAt;
  }

  lemma {:induction false} BlankLine(data: seq<byte>, pos: nat)
    requires pos <= |data|
    ensures IsBlank(LineAt(data, pos)) <==> NothingNamed(data, pos)
    ensures !IsBlank(LineAt(data, pos)) ==>
              pos < |data| && LineAt(data, pos) != [10] && LineAt(data, pos) != [13, 10]
  {
    if pos < |data| {
      var line := LineAt(data, pos);
      assert line[0] == data[pos];
      if data[pos] != LF {
        var rest := LineAt(data, pos + 1);
        assert line == [data[pos]] + rest;
        assert pos + 1 == |data| ==> |line| == 1;
        assert pos + 1 < |data| ==> rest[0] == data[pos + 1] && line[1] == rest[0];
        assert pos + 1 < |data| && data[pos + 1] == LF ==> rest == [LF];
      }
    }
  }

  // --- One turn of the loop ---

  // A turn at pos fails for a reason that is there, ends at the size 0, or gives a whole chunk.
  lemma TurnIsRight(data: seq<byte>, pos: nat, seen: nat, max: nat) returns (c: Cut)
    requires pos <= |data|
    ensures var (step, next) := ReadStep(data, pos);
            && (step.Failed? ==> Stops(data, pos, seen, max, Err(step.error)))
            && (step.Last? ==> c.line == pos && c.size == 0 && NamesSize(data, c))
            && (step.More? ==>
                  c.line == pos && IsChunk(data, c) && next == Next(c) && step.chunk == Piece(data, c))
  {
    BlankLine(data, pos);
    var line := LineAt(data, pos);
    if IsBlank(line) {
      BlankTurn(data, pos, seen, max);
      c := Cut(pos, pos, 0);
    } else {
      LineAtIsLine(data, pos);
      c := NamedTurn(data, pos, pos + |line|, seen, max);
    }
    hide *;
  }

  lemma {:induction false} BlankTurn(data: seq<byte>, pos: nat, seen: nat, max: nat)
    requires pos <= |data| && IsBlank(LineAt(data, pos)) && NothingNamed(data, pos)
    ensures ReadStep(data, pos).0 == Failed(UnexpectedEnd) && Stops(data, pos, seen, max, Err(UnexpectedEnd))
  {
    hide SizeText, ParseHex, LineAt, SkipTrailers, NothingNamed, IsBlank;
  }

  lemma LineEndBytes(data: seq<byte>, end: nat)
    requires end + 2 <= |data|
    ensures data[end..end + 2] == CRLF <==> data[end] == 13 && data[end + 1] == 10
  {
    var two := data[end..end + 2];
    assert two[0] == data[end] && two[1] == data[end + 1];
  }

  lemma NamedTurn(data: seq<byte>, pos: nat, start: nat, seen: nat, max: nat) returns (c: Cut)
    requires IsLine(data, pos, start) && LineAt(data, pos) == data[pos..start] && !IsBlank(data[pos..start])
    ensures var (step, next) := ReadStep(data, pos);
            && (step.Failed? ==> Stops(data, pos, seen, max, Err(step.error)))
            && (step.Last? ==> c.line == pos && c.size == 0 && NamesSize(data, c))
            && (step.More? ==>
                  c.line == pos && IsChunk(data, c) && next == Next(c) && step.chunk == Piece(data, c))
  {
    hide SizeText, ParseHex, LineAt, SkipTrailers;
    var size := ParseHex(SizeText(data[pos..start]));
    if size.NoSize? {
      c := Cut(pos, start, 0);
      assert NamesNoSize(data, pos, start);
      hide NamesNoSize, IsLine;
    } else {
      c := Cut(pos, start, size.value);
      assert NamesSize(data, c);
      if size.value > 0 && Next(c) <= |data| {
        var end := start + size.value;
        LineEndBytes(data, end);
        assert data[end..end + 2] != CRLF ==> NotTerminated(data, c);
      } else if size.value > 0 {
        assert CutShort(data, c);
      }
      hide IsLine, NamesSize;
    }
  }

  // --- Whole messages ---

  lemma ReadMore(data: seq<byte>, pos: nat, chunks: seq<seq<byte>>, seen: nat, max: nat)
    requires pos <= |data| && ReadStep(data, pos).0.More?
    ensures var (step, next) := ReadStep(data, pos);
            ReadChunks(data, pos, chunks, seen, max) ==
            if seen + |step.chunk| > max then Outcome(Err(TooLarge), next)
            else ReadChunks(data, next, chunks + [step.chunk], seen + |step.chunk|, max)
  {
    hide ReadStep, Concat;
  }

  lemma {:induction false} ReadEnd(data: seq<byte>, pos: nat, chunks: seq<seq<byte>>, seen: nat, max: nat)
    requires pos <= |data| && !ReadStep(data, pos).0.More?
    ensures var step := ReadStep(data, pos).0;
            ReadChunks(data, pos, chunks, seen, max).result ==
            if step.Last? then Ok(Concat(chunks)) else Err(step.error)
  {
    hide ReadStep, Concat;
  }

  lemma {:induction false} Cons(data: seq<byte>, c: Cut, rest: seq<Cut>, end: nat)
    requires IsChunk(data, c) && Chunks(data, Next(c), rest, end)
    ensures Chunks(data, c.line, [c] + rest, end) && SizeOf([c] + rest) == c.size + SizeOf(rest)
    ensures BodyOf(data, [c] + rest) == Piece(data, c) + BodyOf(data, rest) && |Piece(data, c)| == c.size
  {
    assert ([c] + rest)[1..] == rest;
    hide NamesSize;
  }

  lemma {:induction false} Append(chunks: seq<seq<byte>>, chunk: seq<byte>, rest: seq<byte>)
    ensures Concat(chunks + [chunk]) + rest == Concat(chunks) + (chunk + rest)
  {
    ConcatPush(chunks, chunk);
  }

  // The reader passes complete chunks, within the limit, up to a place where it stops for the reason
  // that its result names; what it returns there is the bytes of those chunks in order.
  lemma {:induction false} OutcomeIsRight(data: seq<byte>, pos: nat, chunks: seq<seq<byte>>, seen: nat, max: nat)
    returns (cuts: seq<Cut>, end: nat)
    requires pos <= |data| && seen <= max
    ensures var result := ReadChunks(data, pos, chunks, seen, max).result;
            && Chunks(data, pos, cuts, end) && seen + SizeOf(cuts) <= max
            && Stops(data, end, seen + SizeOf(cuts), max, result)
            && (result.Ok? ==> result.body == Concat(chunks) + BodyOf(data, cuts))
    decreases |data| - pos
  {
    hide *;
    var c := TurnIsRight(data, pos, seen, max);
    var (step, next) := ReadStep(data, pos);
    if step.More? {
      ReadMore(data, pos, chunks, seen, max);
      PieceFits(data, c);
      if seen + |step.chunk| <= max {
        var rest;
        rest, end := OutcomeIsRight(data, next, chunks + [step.chunk], seen + |step.chunk|, max);
        cuts := [c] + rest;
        Cons(data, c, rest, end);
        Append(chunks, step.chunk, BodyOf(data, rest));
      } else {
        cuts, end := [], pos;
        NoCuts(data, pos);
        TooMuch(data, c, seen, max);
      }
    } else {
      cuts, end := [], pos;
      NoCuts(data, pos);
      ReadEnd(data, pos, chunks, seen, max);
      assert Concat(chunks) + [] == Concat(chunks);
      if step.Last? {
        ZeroStops(data, c, seen, max, Concat(chunks));
      }
    }
  }

  lemma PieceFits(data: seq<byte>, c: Cut)
    requires IsChunk(data, c)
    ensures |Piece(data, c)| == c.size && c.line < Next(c) <= |data|
  {
  }

  lemma {:induction false} NoCuts(data: seq<byte>, pos: nat)
    ensures Chunks(data, pos, [], pos) && SizeOf([]) == 0 && BodyOf(data, []) == []
  {
  }

  lemma TooMuch(data: seq<byte>, c: Cut, seen: nat, max: nat)
    requires IsChunk(data, c) && seen + c.size > max
    ensures Stops(data, c.line, seen, max, Err(TooLarge))
  {
    hide IsChunk;
  }

  lemma ZeroStops(data: seq<byte>, c: Cut, seen: nat, max: nat, body: seq<byte>)
    requires c.size == 0 && NamesSize(data, c)
    ensures Stops(data, c.line, seen, max, Ok(body))
  {
    hide NamesSize;
  }

  // The chunks of a message, the line of size 0 behind them, and the limit.
  ghost predicate Accepts(data: seq<byte>, pos: nat, cuts: seq<Cut>, last: Cut, max: nat) {
    Chunks(data, pos, cuts, last.line) && last.size == 0 && NamesSize(data, last) && SizeOf(cuts) <= max
  }

  lemma AcceptedHasChunks(data: seq<byte>, pos: nat, max: nat) returns (cuts: seq<Cut>, last: Cut)
    requires pos <= |data| && ReadChunks(data, pos, [], 0, max).result.Ok?
    ensures Accepts(data, pos, cuts, last, max)
  {
    hide ReadChunks, Chunks, NamesSize;
    var end;
    cuts, end := OutcomeIsRight(data, pos, [], 0, max);
    last :| last.line == end && last.size == 0 && NamesSize(data, last);
  }

  lemma {:induction false} ChunksAreAccepted(data: seq<byte>, pos: nat, cuts: seq<Cut>, last: Cut, max: nat)
    requires pos <= |data| && Accepts(data, pos, cuts, last, max)
    ensures ReadChunks(data, pos, [], 0, max).result == Ok(BodyOf(data, cuts))
  {
    hide ReadChunks, Chunks, NamesSize, BodyOf;
    AcceptedIsRead(data, pos, cuts, last, [], 0, max);
    assert [] + BodyOf(data, cuts) == BodyOf(data, cuts);
  }

  // A body is accepted exactly if complete chunks, not too large in all, stand in front of a line of
  // size 0, and then it is their bytes in order.
  lemma {:induction false} AcceptedIff(data: seq<byte>, pos: nat, max: nat)
    requires pos <= |data|
    ensures ReadChunks(data, pos, [], 0, max).result.Ok? <==> exists cuts, last :: Accepts(data, pos, cuts, last, max)
    ensures forall cuts, last :: Accepts(data, pos, cuts, last, max) ==>
              ReadChunks(data, pos, [], 0, max).result == Ok(BodyOf(data, cuts))
  {
    hide *;
    if ReadChunks(data, pos, [], 0, max).result.Ok? {
      var cuts, last := AcceptedHasChunks(data, pos, max);
    }
    forall cuts, last | Accepts(data, pos, cuts, last, max)
      ensures ReadChunks(data, pos, [], 0, max).result == Ok(BodyOf(data, cuts))
    {
      ChunksAreAccepted(data, pos, cuts, last, max);
    }
  }

  lemma {:induction false} AcceptedIsRead(data: seq<byte>, pos: nat, cuts: seq<Cut>, last: Cut,
                                          chunks: seq<seq<byte>>, seen: nat, max: nat)
    requires pos <= |data| && Chunks(data, pos, cuts, last.line) && last.size == 0 && NamesSize(data, last)
    requires seen + SizeOf(cuts) <= max
    ensures ReadChunks(data, pos, chunks, seen, max).result == Ok(Concat(chunks) + BodyOf(data, cuts))
    decreases cuts
  {
    hide ReadStep, Concat, NamesSize, IsChunk, ReadChunks, Next, Piece;
    if cuts == [] {
      LastTurn(data, last);
      ReadEnd(data, pos, chunks, seen, max);
      assert Concat(chunks) + [] == Concat(chunks);
    } else {
      var c := cuts[0];
      MoreTurn(data, c);
      PieceFits(data, c);
      ReadMore(data, pos, chunks, seen, max);
      AcceptedIsRead(data, Next(c), cuts[1..], last, chunks + [Piece(data, c)], seen + c.size, max);
      Append(chunks, Piece(data, c), BodyOf(data, cuts[1..]));
    }
  }

  lemma LastTurn(data: seq<byte>, c: Cut)
    requires c.size == 0 && NamesSize(data, c)
    ensures c.line <= |data| && ReadStep(data, c.line).0 == Last
  {
    LineIsRead(data, c.line, c.start);
    hide SizeText, ParseHex, LineAt, SkipTrailers, IsLine;
  }

  lemma MoreTurn(data: seq<byte>, c: Cut)
    requires IsChunk(data, c)
    ensures c.line <= |data| && ReadStep(data, c.line) == (More(Piece(data, c)), Next(c))
  {
    hide SizeText, ParseHex, LineAt, SkipTrailers;
    LineIsRead(data, c.line, c.start);
    LineEndBytes(data, c.start + c.size);
  }

  // --- A message that breaks off ---

  // What is left of a printed size when its end is cut off is again a size, and not 0.
  lemma {:induction false} CutHexIsPositive(n: nat, k: nat)
    requires n > 0 && 0 < k <= |PrintHex(n)|
    ensures ParseHex(PrintHex(n)[..k]).Size? && ParseHex(PrintHex(n)[..k]).value > 0
    decreases n
  {
    if k == |PrintHex(n)| {
      assert PrintHex(n)[..k] == PrintHex(n);
      ParsePrintedHex(n);
    } else {
      assert n >= 16;
      assert PrintHex(n)[..k] == PrintHex(n / 16)[..k];
      CutHexIsPositive(n / 16, k);
    }
  }

  // A line of hex digits, with or without its CR, and nothing behind it.
  lemma {:induction false} DigitsAtTheEnd(data: seq<byte>, pos: nat, digits: seq<byte>, cr: seq<byte>)
    requires ParseHex(digits).Size? && (cr == [] || cr == [CR])
    requires pos <= |data| && data[pos..] == digits + cr
    ensures NamesSize(data, Cut(pos, |data|, ParseHex(digits).value))
  {
    ParsedHexIsDigits(digits);
    var line := digits + cr;
    assert data[pos..|data|] == line;
    forall k | pos <= k < |data| - 1
      ensures data[k] != 10
    {
      assert data[k] == line[k - pos] && digits[k - pos] in digits;
    }
    assert line[0] == digits[0] && digits[0] in digits;
    DigitsNameTheirSize(digits, cr);
    hide SizeText, ParseHex;
  }

  lemma DigitsNameTheirSize(digits: seq<byte>, cr: seq<byte>)
    requires digits != [] && (forall b <- digits :: IsHexDigit(b)) && forall b <- cr :: IsSpace(b)
    ensures SizeText(digits + cr) == digits
  {
    assert digits[0] in digits && (digits + cr)[0] == digits[0];
    assert StripStart(digits + cr) == digits + cr;
    StripPlainLine(digits, cr);
    hide StripEnd, BeforeSemicolon, StripStart;
  }


  lemma CutShortTurn(data: seq<byte>, c: Cut)
    requires CutShort(data, c)
    ensures c.line <= |data| && ReadStep(data, c.line).0 == Failed(IncompleteRead)
  {
    LineIsRead(data, c.line, c.start);
    hide SizeText, ParseHex, LineAt, SkipTrailers;
  }

  lemma LineOfText(data: seq<byte>, pos: nat, text: seq<byte>)
    requires LF !in text && pos + |text| + 2 <= |data| && data[pos..pos + |text| + 2] == text + CRLF
    ensures IsLine(data, pos, pos + |text| + 2)
  {
    var line := text + CRLF;
    forall k | pos <= k < pos + |text| + 1
      ensures data[k] != 10
    {
      assert data[k] == line[k - pos];
    }
    assert data[pos + |text| + 1] == line[|text| + 1];
  }

  lemma {:induction false} HexIsNoLineEnd(digits: seq<byte>)
    requires ParseHex(digits).Size?
    ensures digits != [] && (forall b <- digits :: IsHexDigit(b)) && LF !in digits && digits[0] != CR
  {
    ParsedHexIsDigits(digits);
    assert digits[0] in digits;
    hide ParseHex;
  }

  // A whole size line.
  lemma {:induction false} SizeLine(data: seq<byte>, pos: nat, digits: seq<byte>)
    requires ParseHex(digits).Size? && pos + |digits| + 2 <= |data|
    requires data[pos..pos + |digits| + 2] == digits + CRLF
    ensures NamesSize(data, Cut(pos, pos + |digits| + 2, ParseHex(digits).value))
  {
    hide SizeText, ParseHex, IsLine, IsHexDigit;
    HexIsNoLineEnd(digits);
    LineOfText(data, pos, digits);
    DigitsNameTheirSize(digits, CRLF);
    assert (digits + CRLF)[0] == digits[0];
  }

  lemma TakeOfConcat(s: seq<byte>, t: seq<byte>, m: nat)
    requires m <= |s| + |t|
    ensures (s + t)[..m] == if m <= |s| then s[..m] else s + t[..m - |s|]
  {
  }

  lemma {:induction false} BreaksInSize(data: seq<byte>, pos: nat, n: nat, k: nat)
    requires n > 0 && 0 < k <= |PrintHex(n)| && pos <= |data| && data[pos..] == PrintHex(n)[..k]
    ensures ReadStep(data, pos).0.Failed?
  {
    hide *;
    var digits := PrintHex(n)[..k];
    CutHexIsPositive(n, k);
    assert digits + [] == digits;
    DigitsAtTheEnd(data, pos, digits, []);
    EndIsShort(data, pos, ParseHex(digits).value);
  }

  lemma EndIsShort(data: seq<byte>, pos: nat, size: nat)
    requires NamesSize(data, Cut(pos, |data|, size)) && size > 0
    ensures pos <= |data| && ReadStep(data, pos).0.Failed?
  {
    hide NamesSize, ReadStep;
    CutShortTurn(data, Cut(pos, |data|, size));
  }

  lemma {:induction false} BreaksBehindSize(data: seq<byte>, pos: nat, n: nat)
    requires n > 0 && pos <= |data| && data[pos..] == PrintHex(n) + [CR]
    ensures ReadStep(data, pos).0.Failed?
  {
    hide *;
    ParsePrintedHex(n);
    DigitsAtTheEnd(data, pos, PrintHex(n), [CR]);
    EndIsShort(data, pos, n);
  }

  lemma {:induction false} BreaksInBody(data: seq<byte>, pos: nat, n: nat, tail: seq<byte>)
    requires n > 0 && pos <= |data| && |tail| < n + 2 && data[pos..] == PrintHex(n) + CRLF + tail
    ensures ReadStep(data, pos).0.Failed?
  {
    hide PrintHex, ParseHex, ReadStep, NamesSize;
    var hex := PrintHex(n);
    assert data[pos..pos + |hex| + 2] == data[pos..][..|hex| + 2] == hex + CRLF;
    ParsePrintedHex(n);
    SizeLine(data, pos, hex);
    CutShortTurn(data, Cut(pos, pos + |hex| + 2, n));
  }

  lemma Nothing(data: seq<byte>, pos: nat)
    requires pos == |data|
    ensures ReadStep(data, pos).0 == Failed(UnexpectedEnd)
  {
    hide *;
    BlankLine(data, pos);
    assert NothingNamed(data, pos) by {
      NothingAtTheEnd(data);
    }
    BlankTurn(data, pos, 0, 0);
  }

  lemma NothingAtTheEnd(data: seq<byte>)
    ensures NothingNamed(data, |data|)
  {
  }

  lemma CutEncoding(hex: seq<byte>, chunk: seq<byte>, m: nat)
    requires m < |hex + CRLF + chunk + CRLF|
    ensures var cut := (hex + CRLF + chunk + CRLF)[..m];
            && (m <= |hex| ==> cut == hex[..m])
            && (m == |hex| + 1 ==> cut == hex + [CR])
            && (m >= |hex| + 2 ==> cut == hex + CRLF + (chunk + CRLF)[..m - |hex| - 2])
    ensures |CRLF| == 2
  {
    if m <= |hex| {
      assert hex + CRLF + chunk + CRLF == hex + (CRLF + chunk + CRLF);
      TakeOfConcat(hex, CRLF + chunk + CRLF, m);
    } else if m == |hex| + 1 {
      assert hex + CRLF + chunk + CRLF == (hex + [CR]) + ([LF] + chunk + CRLF);
      TakeOfConcat(hex + [CR], [LF] + chunk + CRLF, m);
    } else {
      assert hex + CRLF + chunk + CRLF == (hex + CRLF) + (chunk + CRLF);
      TakeOfConcat(hex + CRLF, chunk + CRLF, m);
    }
  }

  lemma {:induction false} EncodeUnfolds(chunk: seq<byte>)
    requires chunk != []
    ensures EncodeChunk(chunk) == PrintHex(|chunk|) + CRLF + chunk + CRLF
  {
    hide PrintHex;
  }

  // A chunk that breaks off is refused, wherever it does.
  lemma BrokenChunkIsRefused(data: seq<byte>, pos: nat, chunk: seq<byte>)
    requires chunk != [] && pos <= |data| && |data| - pos < |EncodeChunk(chunk)|
    requires data[pos..] == EncodeChunk(chunk)[..|data| - pos]
    ensures ReadStep(data, pos).0.Failed?
  {
    hide *;
    var hex, m := PrintHex(|chunk|), |data| - pos;
    EncodeUnfolds(chunk);
    CutEncoding(hex, chunk, m);
    if m == 0 {
      Nothing(data, pos);
    } else if m <= |hex| {
      BreaksInSize(data, pos, |chunk|, m);
    } else if m == |hex| + 1 {
      BreaksBehindSize(data, pos, |chunk|);
    } else {
      BreaksInBody(data, pos, |chunk|, (chunk + CRLF)[..m - |hex| - 2]);
    }
  }

  // Of the last chunk, the digit is enough.
  lemma BrokenLastChunk(data: seq<byte>, pos: nat)
    requires pos <= |data| <= pos + |LAST| && data[pos..] == LAST[..|data| - pos]
    ensures ReadStep(data, pos).0 == if pos == |data| then Failed(UnexpectedEnd) else Last
  {
    var m := |data| - pos;
    assert ParseHex([48]) == Size(0);
    hide ReadStep, ParseHex, NamesSize;
    if m == 0 {
      Nothing(data, pos);
    } else if m <= 2 {
      assert data[pos..] == [48] + if m == 1 then [] else [CR];
      DigitsAtTheEnd(data, pos, [48], if m == 1 then [] else [CR]);
      LastTurn(data, Cut(pos, |data|, 0));
    } else {
      assert data[pos..pos + 3] == data[pos..][..3] == [48] + CRLF;
      SizeLine(data, pos, [48]);
      LastTurn(data, Cut(pos, pos + 3, 0));
    }
  }

  lemma EncodedChunk(chunk: seq<byte>) returns (c: Chunk)
    requires chunk != []
    ensures ValidLine(c) && c.data == chunk && Line(c) + c.data + CRLF == EncodeChunk(chunk)
  {
    c := Chunk(PrintHex(|chunk|), [], [], chunk);
    ParsePrintedHex(|chunk|);
    PlainLine(PrintHex(|chunk|), chunk);
    hide PrintHex, ParseHex;
  }

  lemma FrontOfRest(data: seq<byte>, pos: nat, front: seq<byte>, rest: seq<byte>, m: nat)
    requires pos <= |data| && |front| <= m == |data| - pos <= |front + rest| && data[pos..] == (front + rest)[..m]
    ensures At(data, pos, front) && data[pos + |front|..] == rest[..m - |front|]
  {
    TakeOfConcat(front, rest, m);
    assert data[pos..pos + |front|] == data[pos..][..|front|];
    assert data[pos + |front|..] == data[pos..][|front|..];
  }

  lemma WholeChunkIsRead(data: seq<byte>, pos: nat, chunk: seq<byte>, rest: seq<byte>, m: nat)
    requires chunk != [] && pos <= |data| && |EncodeChunk(chunk)| <= m == |data| - pos <= |EncodeChunk(chunk) + rest|
    requires data[pos..] == (EncodeChunk(chunk) + rest)[..m]
    ensures var next := pos + |EncodeChunk(chunk)|;
            && next <= |data| && ReadStep(data, pos) == (More(chunk), next)
            && data[next..] == rest[..|data| - next]
  {
    hide *;
    var c := EncodedChunk(chunk);
    FrontOfRest(data, pos, EncodeChunk(chunk), rest, m);
    ChunkIsRead(data, pos, c);
  }

  lemma {:induction false} BrokenMessage(data: seq<byte>, pos: nat, cs: seq<seq<byte>>, chunks: seq<seq<byte>>,
                                         seen: nat, max: nat)
    requires pos <= |data| && seen <= max && |data| - pos <= |EncodeChunks(cs) + LAST|
    requires data[pos..] == (EncodeChunks(cs) + LAST)[..|data| - pos]
    ensures ReadChunks(data, pos, chunks, seen, max).result.Ok? <==>
            |data| - pos > |EncodeChunks(cs)| && seen + |Concat(cs)| <= max
    decreases cs
  {
    var m := |data| - pos;
    hide EncodeChunk, ReadStep, ReadChunks, LAST;
    if cs == [] {
      assert [] + LAST == LAST && Concat(cs) == [];
      BrokenLastChunk(data, pos);
      ReadEnd(data, pos, chunks, seen, max);
    } else {
      var c, rest := cs[0], EncodeChunks(cs[1..]) + LAST;
      ConcatHead(cs);
      Associate(EncodeChunk(c), EncodeChunks(cs[1..]), LAST);
      assert EncodeChunks(cs) + LAST == EncodeChunk(c) + rest;
      hide EncodeChunks, Concat;
      if c == [] {
        EmptyChunk(c, rest);
        BrokenMessage(data, pos, cs[1..], chunks, seen, max);
      } else if m < |EncodeChunk(c)| {
        TakeOfConcat(EncodeChunk(c), rest, m);
        BrokenChunkIsRefused(data, pos, c);
        ReadEnd(data, pos, chunks, seen, max);
      } else {
        WholeChunkIsRead(data, pos, c, rest, m);
        ReadMore(data, pos, chunks, seen, max);
        if seen + |c| <= max {
          BrokenMessage(data, pos + |EncodeChunk(c)|, cs[1..], chunks + [c], seen + |c|, max);
        }
      }
    }
  }

  lemma EmptyChunk(chunk: seq<byte>, rest: seq<byte>)
    requires chunk == []
    ensures EncodeChunk(chunk) == [] && EncodeChunk(chunk) + rest == rest
  {
  }

  // When the stream ends early, the reader accepts what the writer began exactly if the digit of the
  // last chunk was still sent: the chunks alone, and any part of them, are refused.
  lemma {:induction false} BrokenOffIsAcceptedIff(chunks: seq<seq<byte>>, n: nat, max: nat)
    requires n <= |EncodeChunks(chunks) + LAST|
    ensures ReadChunks((EncodeChunks(chunks) + LAST)[..n], 0, [], 0, max).result.Ok? <==>
            n > |EncodeChunks(chunks)| && |Concat(chunks)| <= max
  {
    hide *;
    var data := (EncodeChunks(chunks) + LAST)[..n];
    assert data[0..] == data;
    BrokenMessage(data, 0, chunks, [], 0, max);
  }


  // --- Sizes in hex ---

  // The digits are those of ASCII: upper case in print, either case when read.
  lemma HexDigitsAreAscii(d: nat, b: byte)
    requires d < 16
    ensures HexDigit(d) == "0123456789ABCDEF"[d] as int
    ensures IsHexDigit(b) && DigitValue(b) == d <==>
            b == "0123456789ABCDEF"[d] as int || b == "0123456789abcdef"[d] as int
  {
  }

  function Pow16(n: nat): nat {
    if n == 0 then 1 else 16 * Pow16(n - 1)
  }

  lemma {:induction false} ParsePush(front: seq<byte>, b: byte)
    ensures ParseHex(front + [b]) ==
            if !IsHexDigit(b) then NoSize
            else if front == [] then Size(DigitValue(b))
            else if ParseHex(front).NoSize? then NoSize
            else Size(16 * ParseHex(front).value + DigitValue(b))
    ensures ParseHex([]) == NoSize
  {
    assert (front + [b])[..|front|] == front;
    hide IsHexDigit, DigitValue;
  }

  lemma Distribute(a: nat, p: nat, l: nat, d: nat)
    ensures 16 * (a * p + l) + d == a * (16 * p) + (16 * l + d)
  {
  }

  // A digit counts by its place: a front part weighs sixteen times more for each digit behind it.
  lemma {:induction false} HexPlaces(front: seq<byte>, back: seq<byte>)
    requires ParseHex(front).Size? && ParseHex(back).Size?
    ensures ParseHex(front + back) == Size(ParseHex(front).value * Pow16(|back|) + ParseHex(back).value)
    decreases back
  {
    hide ParseHex, IsHexDigit, DigitValue;
    ParsePush([], 0);
    var n := |back| - 1;
    var rest, b := back[..n], back[n];
    assert back == rest + [b] && front + back == (front + rest) + [b];
    ParsePush(rest, b);
    ParsePush(front + rest, b);
    assert Pow16(n + 1) == 16 * Pow16(n);
    if rest == [] {
      assert front + rest == front && Pow16(0) == 1;
      Distribute(ParseHex(front).value, 1, 0, DigitValue(b));
    } else {
      HexPlaces(front, rest);
      Distribute(ParseHex(front).value, Pow16(n), ParseHex(rest).value, DigitValue(b));
    }
  }

  ghost predicate AllHex(s: seq<byte>) {
    forall b <- s :: IsHexDigit(b)
  }

  lemma AllHexPush(front: seq<byte>, b: byte)
    ensures AllHex(front + [b]) <==> AllHex(front) && IsHexDigit(b)
  {
    hide IsHexDigit;
    assert b in front + [b] && forall x <- front :: x in front + [b];
  }

  // A text is a size exactly if it is nonempty and all hex digits.
  lemma {:induction false} SizesAreHexTexts(s: seq<byte>)
    ensures ParseHex(s).Size? <==> s != [] && AllHex(s)
  {
    hide ParseHex, IsHexDigit, DigitValue;
    ParsePush([], 0);
    if s != [] {
      var front, b := s[..|s| - 1], s[|s| - 1];
      assert s == front + [b];
      ParsePush(front, b);
      AllHexPush(front, b);
      SizesAreHexTexts(front);
      assert AllHex([]);
      hide AllHex;
    }
  }

  // --- The text of a size line ---

  // White space as bytes.strip() has it.
  ghost predicate Spaces(s: seq<byte>) {
    forall b <- s :: b == 32 || b == 9 || b == 10 || b == 11 || b == 12 || b == 13
  }

  lemma {:induction false} StripStartIsRight(s: seq<byte>) returns (spaces: seq<byte>)
    ensures s == spaces + StripStart(s) && Spaces(spaces)
    ensures StripStart(s) != [] ==> !Spaces(StripStart(s)[..1])
  {
    if s != [] && IsSpace(s[0]) {
      var rest := StripStartIsRight(s[1..]);
      spaces := [s[0]] + rest;
      assert s == [s[0]] + s[1..];
    } else {
      spaces := [];
      assert s != [] ==> s[..1] == [s[0]] && s[0] in s[..1];
    }
  }

  lemma {:induction false} StripEndIsRight(s: seq<byte>) returns (spaces: seq<byte>)
    ensures s == StripEnd(s) + spaces && Spaces(spaces)
    ensures StripEnd(s) != [] ==> !Spaces([StripEnd(s)[|StripEnd(s)| - 1]])
  {
    if s != [] && IsSpace(s[|s| - 1]) {
      var front, b := s[..|s| - 1], s[|s| - 1];
      var rest := StripEndIsRight(front);
      SpacesPush(rest, b);
      spaces := rest + [b];
      assert s == front + [b];
      assert StripEnd(s) == StripEnd(front);
      hide StripEnd, Spaces;
    } else {
      spaces := [];
      assert s != [] ==> s[|s| - 1] in [s[|s| - 1]];
    }
  }

  lemma SpacesPush(s: seq<byte>, b: byte)
    requires Spaces(s) && IsSpace(b)
    ensures Spaces(s + [b])
  {
  }

  // The size text is what stands in front of the first semicolon of the trimmed line, trimmed at its end.
  lemma SizeTextIsRight(line: seq<byte>) returns (front: seq<byte>, size: seq<byte>, gap: seq<byte>, back: seq<byte>)
    ensures line == front + size + gap + back && size == SizeText(line)
    ensures Spaces(front) && Spaces(gap)
    ensures 59 !in size + gap
    ensures !Spaces(back) ==> back[0] == 59
    ensures size != [] ==> !Spaces([size[|size| - 1]])
  {
    front := StripStartIsRight(line);
    var inner := StripStart(line);
    var tail := StripEndIsRight(inner);
    var core := StripEnd(inner);
    var rest := BeforeSemicolonIsRight(core);
    gap := StripEndIsRight(BeforeSemicolon(core));
    size := StripEnd(BeforeSemicolon(core));
    back := rest + tail;
    hide *;
    SizeTextUnfolds(line);
    assert line == front + (size + gap + rest + tail);
    assert rest == [] ==> back == tail;
    assert rest != [] ==> back[0] == rest[0];
  }

  lemma {:induction false} SizeTextUnfolds(line: seq<byte>)
    ensures SizeText(line) == StripEnd(BeforeSemicolon(StripEnd(StripStart(line))))
  {
    hide StripStart, StripEnd, BeforeSemicolon;
  }

  lemma {:induction false} BeforeSemicolonIsRight(s: seq<byte>) returns (rest: seq<byte>)
    ensures s == BeforeSemicolon(s) + rest && 59 !in BeforeSemicolon(s) && (rest != [] ==> rest[0] == 59)
  {
    if s == [] || s[0] == SEMICOLON {
      rest := s;
    } else {
      rest := BeforeSemicolonIsRight(s[1..]);
      assert s == [s[0]] + s[1..];
    }
  }


  // --- Trailers ---

  // Whole lines, none of them blank, from pos to end.
  ghost predicate Lines(data: seq<byte>, pos: nat, ends: seq<nat>, end: nat)
    decreases ends
  {
    if ends == [] then pos == end
    else IsLine(data, pos, ends[0]) && !NothingNamed(data, pos) && Lines(data, ends[0], ends[1..], end)
  }

  // Behind the last chunk the reader passes nonblank lines up to the first blank one or the end of
  // the stream, and consumes that too.
  lemma {:induction false} TrailersEndAtTheFirstBlank(data: seq<byte>, pos: nat) returns (ends: seq<nat>, blank: nat)
    requires pos <= |data|
    ensures Lines(data, pos, ends, blank) && blank <= |data| && NothingNamed(data, blank)
    ensures SkipTrailers(data, pos) ==
            blank + if blank == |data| then 0 else if data[blank] == 10 then 1 else 2
    decreases |data| - pos
  {
    BlankLine(data, pos);
    var line := LineAt(data, pos);
    if IsBlank(line) {
      ends, blank := [], pos;
      BlankLength(data, pos);
      hide LineAt, IsBlank, NothingNamed;
    } else {
      LineAtIsLine(data, pos);
      hide LineAt, IsBlank, NothingNamed, IsLine;
      var rest;
      rest, blank := TrailersEndAtTheFirstBlank(data, pos + |line|);
      ends := [pos + |line|] + rest;
      assert ends[1..] == rest;
    }
  }

  lemma {:induction false} BlankLength(data: seq<byte>, pos: nat)
    requires pos <= |data| && IsBlank(LineAt(data, pos))
    ensures |LineAt(data, pos)| == if pos == |data| then 0 else if data[pos] == 10 then 1 else 2
  {
    if pos < |data| {
      LineAtIsLine(data, pos);
      assert LineAt(data, pos)[0] == data[pos];
    }
  }
}
