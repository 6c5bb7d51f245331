// The chunked transfer coding of the CONNECT tunnel (section 7.1 of RFC 9112): the writer of
// streamed responses, the reader of request bodies, and the hex sizes between them.
module ChunkedBody {

  type byte = x: int | 0 <= x < 256

  const CR: byte := 13
  const LF: byte := 10
  const SEMICOLON: byte := 59
  const CRLF: seq<byte> := [CR, LF]

  datatype Error = UnexpectedEnd | InvalidChunk | IncompleteRead | TooLarge | InvalidLength

  datatype Result = Ok(body: seq<byte>) | Err(error: Error)

  // What a read returns and where it leaves the stream cursor.
  datatype Outcome = Outcome(result: Result, pos: nat)

  function Concat(chunks: seq<seq<byte>>): seq<byte> {
    if chunks == [] then [] else Concat(chunks[..|chunks| - 1]) + chunks[|chunks| - 1]
  }

  // --- Hex sizes ---

  function HexDigit(d: nat): byte
    requires d < 16
  {
    if d < 10 then 48 + d else 55 + d
  }

  // format(n, "X")
  function PrintHex(n: nat): (s: seq<byte>)
    ensures s != []
  {
    if n < 16 then [HexDigit(n)] else PrintHex(n / 16) + [HexDigit(n % 16)]
  }

  predicate IsHexDigit(b: byte) {
    48 <= b <= 57 || 65 <= b <= 70 || 97 <= b <= 102
  }

  function DigitValue(b: byte): nat
    requires IsHexDigit(b)
  {
    if b <= 57 then b - 48 else if b <= 70 then b - 55 else b - 87
  }

  datatype Size = NoSize | Size(value: nat)

  // int(s, 16) on hex digits; anything else, and the empty text, is refused.
  function ParseHex(s: seq<byte>): Size {
    if s == [] then NoSize
    else
      var (front, last) := (s[..|s| - 1], s[|s| - 1]);
      if !IsHexDigit(last) then NoSize
      else if front == [] then Size(DigitValue(last))
      else
        var high := ParseHex(front);
        if high.NoSize? then NoSize else Size(16 * high.value + DigitValue(last))
  }

  lemma {:induction false} ParsePrintedHex(n: nat)
    ensures ParseHex(PrintHex(n)) == Size(n)
    ensures n == 0 ==> PrintHex(n) == [48]
  {
    if n >= 16 {
      ParsePrintedHex(n / 16);
      assert PrintHex(n)[..|PrintHex(n)| - 1] == PrintHex(n / 16);
    }
  }

  lemma {:induction false} ParsedHexIsDigits(s: seq<byte>)
    requires ParseHex(s).Size?
    ensures s != [] && forall b <- s :: IsHexDigit(b)
  {
    if |s| > 1 {
      ParsedHexIsDigits(s[..|s| - 1]);
      assert s == s[..|s| - 1] + [s[|s| - 1]];
    }
  }

  // --- Lines ---

  predicate IsSpace(b: byte) {
    b == 32 || 9 <= b <= 13
  }

  function StripEnd(s: seq<byte>): seq<byte> {
    if s != [] && IsSpace(s[|s| - 1]) then StripEnd(s[..|s| - 1]) else s
  }

  function StripStart(s: seq<byte>): seq<byte> {
    if s != [] && IsSpace(s[0]) then StripStart(s[1..]) else s
  }

  // line.strip().split(b";", 1)[0], stripped again by int().
  function SizeText(line: seq<byte>): seq<byte> {
    StripEnd(BeforeSemicolon(StripEnd(StripStart(line))))
  }

  function BeforeSemicolon(s: seq<byte>): seq<byte> {
    if s == [] || s[0] == SEMICOLON then [] else [s[0]] + BeforeSemicolon(s[1..])
  }

  // readline(): up to and including the next LF, or what is left before the end.
  function LineAt(data: seq<byte>, pos: nat): (line: seq<byte>)
    requires pos <= |data|
    ensures pos + |line| <= |data|
    ensures line == [] <==> pos == |data|
    decreases |data| - pos
  {
    if pos == |data| then []
    else if data[pos] == LF then [LF]
    else [data[pos]] + LineAt(data, pos + 1)
  }

  predicate IsBlank(line: seq<byte>) {
    line == [] || line == [LF] || line == CRLF
  }

  // --- The reader's specification ---

  function SkipTrailers(data: seq<byte>, pos: nat): (end: nat)
    requires pos <= |data|
    ensures pos <= end <= |data|
    decreases |data| - pos
  {
    var line := LineAt(data, pos);
    if IsBlank(line) then pos + |line| else SkipTrailers(data, pos + |line|)
  }

  // One turn of the reader's loop: a chunk with its line end, the last chunk with its trailer
  // section, or a failure.
  datatype Step = More(chunk: seq<byte>) | Last | Failed(error: Error)

  function ReadStep(data: seq<byte>, pos: nat): (r: (Step, nat))
    requires pos <= |data|
    ensures pos <= r.1 <= |data|
    ensures r.0.More? ==> pos < r.1
  {
    var line := LineAt(data, pos);
    var start := pos + |line|;
    if IsBlank(line) then (Failed(UnexpectedEnd), start)
    else
      var size := ParseHex(SizeText(line));
      if size.NoSize? then (Failed(InvalidChunk), start)
      else if size.value == 0 then (Last, SkipTrailers(data, start))
      else
        var end := start + size.value;
        if end + 2 > |data| then (Failed(IncompleteRead), |data|)
        else if data[end..end + 2] != CRLF then (Failed(InvalidChunk), end + 2)
        else (More(data[start..end]), end + 2)
  }

  function ReadChunks(data: seq<byte>, pos: nat, chunks: seq<seq<byte>>, seen: nat, max: nat): (o: Outcome)
    requires pos <= |data|
    ensures pos <= o.pos <= |data|
    decreases |data| - pos
  {
    var (step, next) := ReadStep(data, pos);
    match step
    case Failed(error) => Outcome(Err(error), next)
    case Last => Outcome(Ok(Concat(chunks)), next)
    case More(chunk) =>
      if seen + |chunk| > max then Outcome(Err(TooLarge), next)
      else ReadChunks(data, next, chunks + [chunk], seen + |chunk|, max)
  }

  // --- The imperative code ---

  class StreamReader {
    const data: seq<byte>
    var pos: nat

    constructor (bytes: seq<byte>)
      ensures data == bytes && pos == 0
    {
      data, pos := bytes, 0;
    }

    ghost predicate Valid()
      reads this
    {
      pos <= |data|
    }

    method ReadLine() returns (line: seq<byte>)
      requires Valid()
      modifies this
      ensures Valid() && line == LineAt(data, old(pos)) && pos == old(pos) + |line|
    {
      line := LineAt(data, pos);
      pos := pos + |line|;
    }

    // readexactly(): a short stream is used up, as the source's IncompleteReadError leaves it.
    method ReadExactly(n: nat) returns (r: Result)
      requires Valid()
      modifies this
      ensures Valid()
      ensures if old(pos) + n <= |data|
              then r == Ok(data[old(pos)..old(pos) + n]) && pos == old(pos) + n
              else r == Err(IncompleteRead) && pos == |data|
    {
      if pos + n > |data| {
        pos := |data|;
        return Err(IncompleteRead);
      }
      r := Ok(data[pos..pos + n]);
      pos := pos + n;
    }
  }

  // The inner loop: lines up to and including the first blank one.
  method SkipTrailerLines(reader: StreamReader)
    requires reader.Valid()
    modifies reader
    ensures reader.Valid() && reader.pos == SkipTrailers(reader.data, old(reader.pos))
  {
    while true
      invariant reader.Valid()
      invariant SkipTrailers(reader.data, reader.pos) == SkipTrailers(reader.data, old(reader.pos))
      decreases |reader.data| - reader.pos
    {
      var trailer := reader.ReadLine();
      if IsBlank(trailer) {
        return;
      }
    }
  }

  method ReadNextChunk(reader: StreamReader) returns (step: Step)
    requires reader.Valid()
    modifies reader
    ensures reader.Valid() && (step, reader.pos) == ReadStep(reader.data, old(reader.pos))
  {
    hide SizeText, ParseHex, LineAt, SkipTrailers;
    var line := reader.ReadLine();
    if IsBlank(line) {
      return Failed(UnexpectedEnd);
    }
    var size := ParseHex(SizeText(line));
    if size.NoSize? {
      return Failed(InvalidChunk);
    }
    if size.value == 0 {
      SkipTrailerLines(reader);
      return Last;
    }
    var chunk := reader.ReadExactly(size.value);
    if chunk.Err? {
      return Failed(chunk.error);
    }
    var terminator := reader.ReadExactly(2);
    if terminator.Err? {
      return Failed(terminator.error);
    }
    if terminator.body != CRLF {
      return Failed(InvalidChunk);
    }
    return More(chunk.body);
  }

  method ReadChunkedHttpBody(reader: StreamReader, max: nat) returns (r: Result)
    requires reader.Valid()
    modifies reader
    ensures reader.Valid() && Outcome(r, reader.pos) == ReadChunks(reader.data, old(reader.pos), [], 0, max)
  {
    hide ReadStep, Concat;
    var chunks: seq<seq<byte>>, seenBytes: nat := [], 0;
    while true
      invariant reader.Valid()
      invariant ReadChunks(reader.data, reader.pos, chunks, seenBytes, max) ==
                ReadChunks(reader.data, old(reader.pos), [], 0, max)
      decreases |reader.data| - reader.pos
    {
      var step := ReadNextChunk(reader);
      match step
      case Failed(error) => return Err(error);
      case Last => return Ok(Concat(chunks));
      case More(chunk) =>
        seenBytes := seenBytes + |chunk|;
        if seenBytes > max {
          return Err(TooLarge);
        }
        chunks := chunks + [chunk];
    }
  }

  class StreamWriter {
    var out: seq<byte>

    constructor ()
      ensures out == []
    {
      out := [];
    }

    method Write(bytes: seq<byte>)
      modifies this
      ensures out == old(out) + bytes
    {
      out := out + bytes;
    }
  }

  function EncodeChunk(chunk: seq<byte>): seq<byte> {
    if chunk == [] then [] else PrintHex(|chunk|) + CRLF + chunk + CRLF
  }

  function EncodeChunks(chunks: seq<seq<byte>>): seq<byte> {
    if chunks == [] then [] else EncodeChunk(chunks[0]) + EncodeChunks(chunks[1..])
  }

  const LAST: seq<byte> := [48] + CRLF + CRLF

  lemma EncodeChunksUnfolds(before: seq<byte>, chunks: seq<seq<byte>>, k: nat)
    requires k < |chunks|
    ensures before + EncodeChunks(chunks[k..]) ==
            (before + EncodeChunk(chunks[k])) + EncodeChunks(chunks[k + 1..])
  {
    assert chunks[k..][1..] == chunks[k + 1..];
  }

  method WriteChunk(writer: StreamWriter, chunk: seq<byte>)
    modifies writer
    ensures writer.out == old(writer.out) + EncodeChunk(chunk)
  {
    if |chunk| == 0 {
      return;
    }
    writer.Write(PrintHex(|chunk|) + CRLF);
    writer.Write(chunk);
    writer.Write(CRLF);
  }

  // The streaming branch of the response writer, after the header block.
  method WriteStreamingBody(writer: StreamWriter, chunks: seq<seq<byte>>)
    modifies writer
    ensures writer.out == old(writer.out) + EncodeChunks(chunks) + LAST
  {
    assert EncodeChunks(chunks[|chunks|..]) == [] && chunks[0..] == chunks;
    hide EncodeChunk, EncodeChunks;
    for k := 0 to |chunks|
      invariant old(writer.out) + EncodeChunks(chunks) == writer.out + EncodeChunks(chunks[k..])
    {
      EncodeChunksUnfolds(writer.out, chunks, k);
      WriteChunk(writer, chunks[k]);
    }
    writer.Write(LAST);
  }

  // --- Chunked messages as the standard allows them ---

  // A chunk line may carry white space and an extension behind its size.
  datatype Chunk = Chunk(size: seq<byte>, pad: seq<byte>, ext: seq<byte>, data: seq<byte>)

  ghost predicate ValidLine(c: Chunk) {
    && ParseHex(c.size) == Size(|c.data|)
    && (forall b <- c.pad :: b == 32 || b == 9)
    && (c.ext == [] || (c.ext[0] == SEMICOLON && LF !in c.ext))
  }

  ghost predicate ValidChunks(cs: seq<Chunk>) {
    forall c <- cs :: ValidLine(c) && c.data != []
  }

  ghost predicate ValidTrailers(trailers: seq<seq<byte>>) {
    forall t <- trailers :: t != [] && LF !in t
  }

  function Line(c: Chunk): seq<byte> {
    c.size + c.pad + c.ext + CRLF
  }

  function EncodeTrailers(trailers: seq<seq<byte>>): seq<byte> {
    if trailers == [] then CRLF else (trailers[0] + CRLF) + EncodeTrailers(trailers[1..])
  }

  function EncodeMessage(cs: seq<Chunk>, last: Chunk, trailers: seq<seq<byte>>): seq<byte> {
    if cs == [] then Line(last) + EncodeTrailers(trailers)
    else (Line(cs[0]) + cs[0].data + CRLF) + EncodeMessage(cs[1..], last, trailers)
  }

  function Bodies(cs: seq<Chunk>): seq<seq<byte>> {
    if cs == [] then [] else [cs[0].data] + Bodies(cs[1..])
  }

  function Total(cs: seq<Chunk>): nat {
    if cs == [] then 0 else |cs[0].data| + Total(cs[1..])
  }

  // data holds s from pos on.
  ghost predicate At(data: seq<byte>, pos: nat, s: seq<byte>) {
    pos + |s| <= |data| && data[pos..pos + |s|] == s
  }

  lemma AtSplit(data: seq<byte>, pos: nat, s: seq<byte>, t: seq<byte>)
    requires At(data, pos, s + t)
    ensures At(data, pos, s) && At(data, pos + |s|, t) && pos + |s| + |t| <= |data|
  {
    var whole := data[pos..pos + |s + t|];
    assert data[pos..pos + |s|] == whole[..|s|];
    assert data[pos + |s|..pos + |s| + |t|] == whole[|s|..];
  }

  lemma {:induction false} LineEndsAtLf(data: seq<byte>, pos: nat, line: seq<byte>)
    requires At(data, pos, line + CRLF) && LF !in line
    ensures LineAt(data, pos) == line + CRLF
    decreases line
  {
    var whole := data[pos..pos + |line + CRLF|];
    assert data[pos] == whole[0];
    if line == [] {
      assert data[pos + 1] == whole[1];
    } else {
      assert data[pos] == line[0] && line[0] in line;
      assert data[pos + 1..pos + 1 + |line[1..] + CRLF|] == whole[1..] == line[1..] + CRLF;
      LineEndsAtLf(data, pos + 1, line[1..]);
    }
  }

  lemma {:induction false} StripEndKeeps(s: seq<byte>, t: seq<byte>)
    requires s != [] && !IsSpace(s[|s| - 1])
    ensures StripEnd(s + t) == s + StripEnd(t)
    decreases t
  {
    if t == [] {
      assert s + t == s;
    } else {
      assert (s + t)[..|s + t| - 1] == s + t[..|t| - 1];
      StripEndKeeps(s, t[..|t| - 1]);
    }
  }

  lemma {:induction false} StripEndOfSpaces(t: seq<byte>)
    requires forall b <- t :: IsSpace(b)
    ensures StripEnd(t) == []
  {
    if t != [] {
      StripEndOfSpaces(t[..|t| - 1]);
    }
  }

  lemma {:induction false} BeforeFirstSemicolon(s: seq<byte>, t: seq<byte>)
    requires SEMICOLON !in s
    ensures BeforeSemicolon(s + t) == s + BeforeSemicolon(t)
    decreases s
  {
    if s == [] {
      assert s + t == t;
    } else {
      assert s[0] in s && (s + t)[1..] == s[1..] + t;
      BeforeFirstSemicolon(s[1..], t);
    }
  }

  // The reader finds the size in every valid chunk line: without an extension the white space
  // goes with the line end, with one the semicolon stops it and int() strips the rest.
  lemma SizeTextOfLine(c: Chunk)
    requires ValidLine(c)
    ensures SizeText(Line(c)) == c.size
  {
    ParsedHexIsDigits(c.size);
    hide ParseHex, StripEnd, BeforeSemicolon;
    assert c.size[0] in c.size && Line(c)[0] == c.size[0];
    assert StripStart(Line(c)) == Line(c);
    if c.ext == [] {
      assert Line(c) == c.size + (c.pad + CRLF);
      StripPlainLine(c.size, c.pad + CRLF);
    } else {
      assert Line(c) == c.size + c.pad + [SEMICOLON] + (c.ext[1..] + CRLF);
      StripExtendedLine(c.size + c.pad, c.ext[1..] + CRLF);
      StripEndOfSpaces(c.pad);
      StripEndKeeps(c.size, c.pad);
      assert c.size + [] == c.size;
    }
  }

  lemma {:induction false} StripPlainLine(size: seq<byte>, spaces: seq<byte>)
    requires size != [] && (forall b <- size :: IsHexDigit(b)) && forall b <- spaces :: IsSpace(b)
    ensures StripEnd(BeforeSemicolon(StripEnd(size + spaces))) == size
  {
    assert size[|size| - 1] in size;
    assert size + [] == size;
    StripEndOfSpaces(spaces);
    StripEndKeeps(size, spaces);
    BeforeFirstSemicolon(size, []);
  }

  lemma {:induction false} StripExtendedLine(front: seq<byte>, tail: seq<byte>)
    requires SEMICOLON !in front
    ensures BeforeSemicolon(StripEnd(front + [SEMICOLON] + tail)) == front
  {
    StripEndKeeps(front + [SEMICOLON], tail);
    assert front + [SEMICOLON] + StripEnd(tail) == front + ([SEMICOLON] + StripEnd(tail));
    BeforeFirstSemicolon(front, [SEMICOLON] + StripEnd(tail));
    assert front + [] == front;
  }

  lemma {:induction false} LineIsRead(data: seq<byte>, pos: nat, c: Chunk)
    requires ValidLine(c) && At(data, pos, Line(c))
    ensures LineAt(data, pos) == Line(c) && !IsBlank(Line(c))
    ensures ParseHex(SizeText(Line(c))) == Size(|c.data|)
  {
    SizeTextOfLine(c);
    ParsedHexIsDigits(c.size);
    assert |c.size| > 0;
    LineEndsAtLf(data, pos, c.size + c.pad + c.ext);
  }

  lemma {:induction false} TrailersAreSkipped(data: seq<byte>, pos: nat, trailers: seq<seq<byte>>)
    requires ValidTrailers(trailers) && At(data, pos, EncodeTrailers(trailers))
    ensures SkipTrailers(data, pos) == pos + |EncodeTrailers(trailers)|
    decreases trailers
  {
    if trailers == [] {
      assert [] + CRLF == CRLF;
      LineEndsAtLf(data, pos, []);
    } else {
      var first := trailers[0];
      assert first in trailers && forall t <- trailers[1..] :: t in trailers;
      AtSplit(data, pos, first + CRLF, EncodeTrailers(trailers[1..]));
      LineEndsAtLf(data, pos, first);
      assert !IsBlank(first + CRLF);
      hide LineAt, At;
      TrailersAreSkipped(data, pos + |trailers[0] + CRLF|, trailers[1..]);
    }
  }

  // One turn of the reader's loop on a valid chunk.
  lemma ChunkIsRead(data: seq<byte>, pos: nat, c: Chunk)
    requires ValidLine(c) && c.data != [] && At(data, pos, Line(c) + c.data + CRLF)
    ensures pos <= |data| && ReadStep(data, pos) == (More(c.data), pos + |Line(c) + c.data + CRLF|)
  {
    AtSplit(data, pos, Line(c) + c.data, CRLF);
    AtSplit(data, pos, Line(c), c.data);
    LineIsRead(data, pos, c);
    hide ValidLine, LineAt, SizeText, ParseHex, Line, SkipTrailers;
  }

  lemma {:induction false} ReadStepOnLast(data: seq<byte>, pos: nat)
    requires pos <= |data|
    ensures var line := LineAt(data, pos);
            !IsBlank(line) && ParseHex(SizeText(line)) == Size(0) ==>
              ReadStep(data, pos) == (Last, SkipTrailers(data, pos + |line|))
  {
    hide SizeText, ParseHex, LineAt, SkipTrailers, IsBlank;
  }

  lemma {:induction false} LastIsRead(data: seq<byte>, pos: nat, last: Chunk, trailers: seq<seq<byte>>)
    requires ValidLine(last) && last.data == [] && ValidTrailers(trailers)
    requires At(data, pos, Line(last) + EncodeTrailers(trailers))
    ensures pos <= |data| && ReadStep(data, pos) == (Last, pos + |Line(last) + EncodeTrailers(trailers)|)
  {
    hide *;
    AtSplit(data, pos, Line(last), EncodeTrailers(trailers));
    LineIsRead(data, pos, last);
    TrailersAreSkipped(data, pos + |Line(last)|, trailers);
    ReadStepOnLast(data, pos);
  }

  // The reader accepts every valid message up to the limit and refuses exactly the larger
  // ones; on success the cursor is just behind the message, whatever follows it.
  lemma {:induction false} MessageIsRead(data: seq<byte>, pos: nat, cs: seq<Chunk>, last: Chunk,
                                         trailers: seq<seq<byte>>, chunks: seq<seq<byte>>, seen: nat, max: nat)
    requires ValidChunks(cs) && ValidLine(last) && last.data == [] && ValidTrailers(trailers)
    requires At(data, pos, EncodeMessage(cs, last, trailers)) && seen <= max
    ensures var o := ReadChunks(data, pos, chunks, seen, max);
            if seen + Total(cs) <= max
            then o == Outcome(Ok(Concat(chunks + Bodies(cs))), pos + |EncodeMessage(cs, last, trailers)|)
            else o.result == Err(TooLarge)
    decreases cs
  {
    hide ReadStep, ValidLine, Line, EncodeTrailers, ValidTrailers, At, Concat;
    if cs == [] {
      LastIsRead(data, pos, last, trailers);
      assert chunks + [] == chunks;
    } else {
      var c, rest := cs[0], EncodeMessage(cs[1..], last, trailers);
      assert ValidLine(c) && c.data != [];
      AtSplit(data, pos, Line(c) + c.data + CRLF, rest);
      ChunkIsRead(data, pos, c);
      if seen + |c.data| <= max {
        MessageIsRead(data, pos + |Line(c) + c.data + CRLF|, cs[1..], last, trailers,
                      chunks + [c.data], seen + |c.data|, max);
        assert chunks + [c.data] + Bodies(cs[1..]) == chunks + Bodies(cs);
      }
    }
  }

  // --- What the writer emits is such a message ---

  function Framed(chunks: seq<seq<byte>>): seq<Chunk> {
    if chunks == [] then []
    else (if chunks[0] == [] then [] else [Chunk(PrintHex(|chunks[0]|), [], [], chunks[0])]) + Framed(chunks[1..])
  }

  lemma {:induction false} WriterEmitsAMessage(chunks: seq<seq<byte>>)
    ensures EncodeChunks(chunks) + LAST == EncodeMessage(Framed(chunks), Chunk([48], [], [], []), [])
  {
    hide PrintHex, Line;
    if chunks == [] {
      PlainLine([48], []);
    } else {
      var c, rest := chunks[0], chunks[1..];
      WriterEmitsAMessage(rest);
      if c == [] {
        assert Framed(chunks) == Framed(rest);
      } else {
        assert Framed(chunks)[1..] == Framed(rest);
        PlainLine(PrintHex(|c|), c);
      }
      assert EncodeChunks(chunks) == EncodeChunk(c) + EncodeChunks(rest);
      Associate(EncodeChunk(c), EncodeChunks(rest), LAST);
      hide *;
    }
  }

  lemma Associate(s: seq<byte>, t: seq<byte>, u: seq<byte>)
    ensures s + t + u == s + (t + u)
  {
  }

  lemma PlainLine(size: seq<byte>, data: seq<byte>)
    ensures Line(Chunk(size, [], [], data)) == size + CRLF
  {
    assert size + [] == size;
  }

  lemma {:induction false} FramedIsValid(chunks: seq<seq<byte>>)
    ensures ValidChunks(Framed(chunks)) && Total(Framed(chunks)) == |Concat(chunks)|
    ensures Concat(Bodies(Framed(chunks))) == Concat(chunks)
  {
    if chunks != [] {
      var c, rest := chunks[0], chunks[1..];
      FramedIsValid(rest);
      ConcatHead(chunks);
      ParsePrintedHex(|c|);
      hide PrintHex, ParseHex, Concat;
      if c == [] {
        assert Framed(chunks) == Framed(rest);
      } else {
        var f := Chunk(PrintHex(|c|), [], [], c);
        assert Framed(chunks) == [f] + Framed(rest) && Framed(chunks)[1..] == Framed(rest);
        assert Bodies(Framed(chunks))[1..] == Bodies(Framed(rest));
        ConcatHead(Bodies(Framed(chunks)));
      }
    }
  }

  lemma {:induction false} ConcatHead(chunks: seq<seq<byte>>)
    requires chunks != []
    ensures Concat(chunks) == chunks[0] + Concat(chunks[1..])
  {
    if |chunks| > 1 {
      var front := chunks[..|chunks| - 1];
      ConcatHead(front);
      assert chunks[1..][..|chunks| - 2] == front[1..];
    }
  }

  // Reading back what was written: the payload may hold any bytes, and anything may follow.
  lemma {:induction false} RoundTrip(chunks: seq<seq<byte>>, before: seq<byte>, after: seq<byte>, max: nat)
    ensures var wire := EncodeChunks(chunks) + LAST;
            var o := ReadChunks(before + wire + after, |before|, [], 0, max);
            if |Concat(chunks)| <= max then o == Outcome(Ok(Concat(chunks)), |before + wire|)
            else o.result == Err(TooLarge)
  {
    var wire, last := EncodeChunks(chunks) + LAST, Chunk([48], [], [], []);
    WriterEmitsAMessage(chunks);
    FramedIsValid(chunks);
    assert At(before + wire + after, |before|, wire);
    assert ParseHex(last.size) == Size(0);
    MessageIsRead(before + wire + after, |before|, Framed(chunks), last, [], [], 0, max);
    assert [] + Bodies(Framed(chunks)) == Bodies(Framed(chunks));
  }

  // Whatever the bytes are, an accepted body is within the limit.
  lemma {:induction false} AcceptedBodyIsWithinLimit(data: seq<byte>, pos: nat, chunks: seq<seq<byte>>, max: nat)
    requires pos <= |data| && |Concat(chunks)| <= max
    ensures var o := ReadChunks(data, pos, chunks, |Concat(chunks)|, max);
            o.result.Ok? ==> |o.result.body| <= max
    decreases |data| - pos
  {
    hide ReadStep, Concat;
    var (step, next) := ReadStep(data, pos);
    if step.More? {
      ConcatPush(chunks, step.chunk);
      if |Concat(chunks)| + |step.chunk| <= max {
        AcceptedBodyIsWithinLimit(data, next, chunks + [step.chunk], max);
      }
    }
  }

  lemma {:induction false} ConcatPush(chunks: seq<seq<byte>>, chunk: seq<byte>)
    ensures Concat(chunks + [chunk]) == Concat(chunks) + chunk
  {
    assert (chunks + [chunk])[..|chunks|] == chunks;
  }

  // --- Either framing of a request body ---

  // What the headers say: chunked, no content-length, one that is no number, or a number.
  datatype Framing = Chunked | NoLength | BadLength | Length(n: int)

  method ReadHttpRequestBody(reader: StreamReader, framing: Framing, max: nat) returns (r: Result)
    requires reader.Valid()
    modifies reader
    ensures reader.Valid() && old(reader.pos) <= reader.pos
    ensures framing.Chunked? ==> Outcome(r, reader.pos) == ReadChunks(reader.data, old(reader.pos), [], 0, max)
    ensures framing.Length? ==>
              && (r == Err(TooLarge) <==> framing.n < 0 || framing.n > max)
              && (0 <= framing.n <= max ==> (r.Ok? <==> old(reader.pos) + framing.n <= |reader.data|))
              && (r.Ok? ==> |r.body| == framing.n && r.body == reader.data[old(reader.pos)..reader.pos])
    ensures framing.NoLength? ==> r == Ok([]) && reader.pos == old(reader.pos)
    ensures framing.BadLength? ==> r == Err(InvalidLength) && reader.pos == old(reader.pos)
    ensures r.Ok? ==> |r.body| <= max
  {
    match framing
    case Chunked =>
      AcceptedBodyIsWithinLimit(reader.data, reader.pos, [], max);
      r := ReadChunkedHttpBody(reader, max);
    case NoLength => return Ok([]);
    case BadLength => return Err(InvalidLength);
    case Length(n) =>
      if n < 0 || n > max {
        return Err(TooLarge);
      }
      if n == 0 {
        return Ok([]);
      }
      r := reader.ReadExactly(n);
  }
}
