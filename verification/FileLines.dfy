/** The line reader that feeds the translation, and its agreement with the preflight. */
module FileLines {
  import opened Prelude
  import opened Utf8
  import opened FileInput

  datatype LineEnding = NoEnding | Lf | CrLf {
    function Bytes(): seq<byte> {
      match this
      case NoEnding => []
      case Lf => [LF]
      case CrLf => [CR, LF]
    }

    function Separator(): seq<byte> {
      if CrLf? then [CR, LF] else [LF]
    }
  }

  datatype InputLine = InputLine(text: string, ending: LineEnding)

  datatype LineRead = NoLine | Line(line: InputLine) | LineTooLong | ReadFailed | NotUtf8

  /** The length of the first line of `b`, its newline included. */
  function RawLen(b: seq<byte>): (n: nat)
    ensures n <= |b| && (b != [] ==> n > 0)
    ensures forall i :: 0 <= i < n - 1 ==> b[i] != LF
    ensures n < |b| ==> b[n - 1] == LF
  {
    if b == [] then 0 else if b[0] == LF then 1 else 1 + RawLen(b[1..])
  }

  /** The bytes of a line without its ending, and the ending. */
  function SplitEnding(raw: seq<byte>): (r: (seq<byte>, LineEnding))
    ensures r.0 + r.1.Bytes() == raw
  {
    if EndsWithLf(raw) then
      if |raw| >= 2 && raw[|raw| - 2] == CR then (raw[..|raw| - 2], CrLf) else (raw[..|raw| - 1], Lf)
    else (raw, NoEnding)
  }

  /** What the bytes of one line are turned into. */
  function Cut(raw: seq<byte>, first: bool): LineRead {
    var (stem, ending) := SplitEnding(raw);
    var bytes := if first then StripBom(stem) else stem;
    if raw == [] || (first && bytes == [] && ending.NoEnding?) then NoLine
    else if WellFormed(bytes) then Line(InputLine(Decode(bytes), ending))
    else NotUtf8
  }

  /** The next line of a file whose unread bytes are `content`; `faulty` if the read after them fails. */
  function NextLine(content: seq<byte>, faulty: bool, first: bool): LineRead {
    var raw := content[..RawLen(content)];
    if |raw| > MAX_LINE_BYTES then LineTooLong
    else if faulty && !EndsWithLf(raw) then ReadFailed
    else Cut(raw, first)
  }

  predicate NoLf(b: seq<byte>) {
    forall i :: 0 <= i < |b| ==> b[i] != LF
  }

  lemma {:induction false} RawLenAcross(a: seq<byte>, b: seq<byte>)
    requires NoLf(a)
    ensures RawLen(a + b) == |a| + RawLen(b)
  {
    if a == [] {
      assert a + b == b;
    } else {
      assert (a + b)[1..] == a[1..] + b;
      RawLenAcross(a[1..], b);
    }
  }

  /** Where the current line ends, seen from one more buffer. */
  lemma NextPiece(bytes: seq<byte>, buffer: seq<byte>, rest: seq<byte>)
    requires NoLf(bytes) && buffer != []
    ensures RawLen(bytes + (buffer + rest)) >= |bytes| + RawLen(buffer)
    ensures buffer[RawLen(buffer) - 1] == LF ==>
      RawLen(bytes + (buffer + rest)) == |bytes| + RawLen(buffer) && EndsWithLf(bytes + buffer[..RawLen(buffer)])
    ensures buffer[RawLen(buffer) - 1] != LF ==>
      RawLen(buffer) == |buffer| && NoLf(bytes + buffer[..RawLen(buffer)])
  {
    hide RawLen;
    RawLenAcross(bytes, buffer + rest);
    var n := RawLen(buffer);
    var head, tail := buffer[..n - 1], buffer[n - 1..] + rest;
    assert buffer + rest == head + tail;
    RawLenAcross(head, tail);
    if buffer[n - 1] == LF {
      LineStartsWithLf(tail);
    }
  }

  lemma LineStartsWithLf(b: seq<byte>)
    requires b != [] && b[0] == LF
    ensures RawLen(b) == 1
  {
  }

  /** A buffered reader: `buffers[0]` is what `fill_buf` returns, the rest is still to be read. */
  class BufReader {
    var buffers: seq<seq<byte>>
    const faulty: bool

    ghost predicate Valid()
      reads this
    {
      forall i :: 0 <= i < |buffers| ==> buffers[i] != []
    }

    ghost function Unread(): seq<byte>
      reads this
    {
      Flatten(buffers)
    }

    constructor (buffers: seq<seq<byte>>, faulty: bool)
      requires forall i :: 0 <= i < |buffers| ==> buffers[i] != []
      ensures Valid() && Unread() == Flatten(buffers) && this.faulty == faulty
    {
      this.buffers, this.faulty := buffers, faulty;
    }

    /** `None` is a failed read; an empty buffer is the end of the file. */
    method FillBuf() returns (available: Option<seq<byte>>)
      requires Valid()
      ensures available == if buffers != [] then Some(buffers[0]) else if faulty then None else Some([])
      ensures buffers != [] ==> available.value != []
    {
      available := if buffers != [] then Some(buffers[0]) else if faulty then None else Some([]);
    }

    method Consume(count: nat)
      requires Valid() && buffers != [] && count <= |buffers[0]|
      modifies this
      ensures Valid() && Unread() == old(buffers)[0][count..] + Flatten(old(buffers)[1..])
      ensures count == |old(buffers[0])| ==> |buffers| < |old(buffers)|
    {
      ghost var before := buffers;
      if count == |buffers[0]| {
        buffers := buffers[1..];
      } else {
        buffers := [buffers[0][count..]] + buffers[1..];
        assert buffers[1..] == before[1..];
      }
    }
  }

  /** Position of the first newline in a buffer, as a length; the whole buffer when there is none. */
  method LineChunk(available: seq<byte>) returns (take: nat)
    requires available != []
    ensures take == RawLen(available)
  {
    take := 0;
    while take < |available| && available[take] != LF
      invariant take <= |available|
      invariant forall i :: 0 <= i < take ==> available[i] != LF
    {
      take := take + 1;
    }
    RawLenAcross(available[..take], available[take..]);
    assert available == available[..take] + available[take..];
    if take < |available| {
      take := take + 1;
    }
  }

  /** Collects the bytes up to and including the next newline. */
  method ReadRawLine(reader: BufReader) returns (bytes: seq<byte>, failure: Option<LineRead>)
    requires reader.Valid()
    modifies reader
    ensures reader.Valid()
    ensures failure.None? ==>
      |bytes| == RawLen(old(reader.Unread())) <= MAX_LINE_BYTES && old(reader.Unread()) == bytes + reader.Unread()
    ensures failure.None? && reader.faulty ==> EndsWithLf(bytes)
    ensures failure.Some? ==>
      failure.value == (if RawLen(old(reader.Unread())) > MAX_LINE_BYTES then LineTooLong else ReadFailed)
    ensures failure == Some(ReadFailed) ==>
      reader.faulty && NoLf(old(reader.Unread())) && RawLen(old(reader.Unread())) == |old(reader.Unread())|
  {
    bytes, failure := [], None;
    assert NoLf([]);
    ghost var content := reader.Unread();
    var foundNewline := false;
    NothingCollected(content);
    hide Flatten, RawLen, NoLf, EndsWithLf, Collected;
    while !foundNewline
      invariant reader.Valid() && |bytes| <= MAX_LINE_BYTES
      invariant Collected(content, bytes, reader.Unread(), foundNewline)
      decreases !foundNewline, |reader.buffers|
    {
      var available := reader.FillBuf();
      if available.None? || available.value == [] {
        AtEnd(reader, content, bytes);
        failure := if available.None? then Some(ReadFailed) else None;
        return;
      }
      var fits;
      bytes, foundNewline, fits := TakeChunk(reader, available.value, bytes, content);
      if !fits {
        return bytes, Some(LineTooLong);
      }
    }
    LineCollected(content, bytes, reader.Unread());
  }

  /** Takes what the filled buffer has of the line, unless the line becomes too long. */
  method TakeChunk(reader: BufReader, buffer: seq<byte>, bytes: seq<byte>, ghost content: seq<byte>)
    returns (more: seq<byte>, foundNewline: bool, fits: bool)
    requires reader.Valid() && reader.buffers != [] && buffer == reader.buffers[0]
    requires Collected(content, bytes, reader.Unread(), false)
    modifies reader
    ensures reader.Valid()
    ensures fits ==>
      && |more| <= MAX_LINE_BYTES && Collected(content, more, reader.Unread(), foundNewline)
      && (!foundNewline ==> |reader.buffers| < |old(reader.buffers)|)
    ensures !fits ==> RawLen(content) > MAX_LINE_BYTES
  {
    hide Flatten, RawLen, NoLf, EndsWithLf, Collected;
    var take := LineChunk(buffer);
    FrontBuffer(reader);
    CollectMore(content, bytes, buffer, Flatten(reader.buffers[1..]));
    if |bytes| + take > MAX_LINE_BYTES {
      return bytes, false, false;
    }
    more, foundNewline, fits := bytes + buffer[..take], buffer[take - 1] == LF, true;
    reader.Consume(take);
  }

  /** `bytes` are taken from the front of `content`, up to its first newline if that was `found`. */
  ghost predicate Collected(content: seq<byte>, bytes: seq<byte>, unread: seq<byte>, found: bool) {
    content == bytes + unread && if found then EndsWithLf(bytes) && |bytes| == RawLen(content) else NoLf(bytes)
  }

  lemma NothingCollected(content: seq<byte>)
    ensures Collected(content, [], content, false)
  {
  }

  lemma LineCollected(content: seq<byte>, bytes: seq<byte>, unread: seq<byte>)
    requires Collected(content, bytes, unread, true)
    ensures content == bytes + unread && EndsWithLf(bytes) && |bytes| == RawLen(content)
  {
  }

  lemma CollectMore(content: seq<byte>, bytes: seq<byte>, buffer: seq<byte>, others: seq<byte>)
    requires Collected(content, bytes, buffer + others, false) && buffer != []
    ensures var take := RawLen(buffer);
      && |bytes| + take <= RawLen(content) && (buffer[take - 1] != LF ==> take == |buffer|)
      && Collected(content, bytes + buffer[..take], buffer[take..] + others, buffer[take - 1] == LF)
  {
    hide RawLen, NoLf, EndsWithLf;
    NextPiece(bytes, buffer, others);
    var head, tail := buffer[..RawLen(buffer)], buffer[RawLen(buffer)..];
    assert buffer == head + tail;
    Associate(head, tail, others);
    Associate(bytes, head, tail + others);
  }

  method ReadInputLine(reader: BufReader, firstLine: bool) returns (r: LineRead)
    requires reader.Valid()
    modifies reader
    ensures reader.Valid()
    ensures r == NextLine(old(reader.Unread()), reader.faulty, firstLine)
    ensures !r.LineTooLong? && !r.ReadFailed? ==>
      reader.Unread() == old(reader.Unread())[RawLen(old(reader.Unread()))..]
  {
    hide Flatten, RawLen, Cut;
    ghost var content := reader.Unread();
    var bytes, failure := ReadRawLine(reader);
    if failure.Some? {
      return failure.value;
    }
    assert content[..|bytes|] == bytes;
    r := Cut(bytes, firstLine);
  }

  lemma AtEnd(reader: BufReader, content: seq<byte>, bytes: seq<byte>)
    requires reader.buffers == [] && Collected(content, bytes, reader.Unread(), false)
    ensures reader.Unread() == [] && content == bytes == bytes + [] && NoLf(bytes) && RawLen(bytes) == |bytes|
  {
    assert bytes + [] == bytes;
    RawLenAcross(bytes, []);
  }

  lemma FrontBuffer(reader: BufReader)
    requires reader.buffers != []
    ensures reader.Unread() == reader.buffers[0] + Flatten(reader.buffers[1..])
  {
  }

  // ---- all lines of a file ----

  /** The lines read until `end`, the first answer that is not a line. */
  datatype FileRead = FileRead(lines: seq<InputLine>, end: LineRead) {
    /** Reading goes on with `rest`. */
    function Then(rest: FileRead): FileRead {
      FileRead(lines + rest.lines, rest.end)
    }
  }

  function AllLines(content: seq<byte>, faulty: bool, first: bool): FileRead
    decreases |content|
  {
    var r := NextLine(content, faulty, first);
    if !r.Line? then FileRead([], r)
    else
      var rest := AllLines(content[RawLen(content)..], faulty, false);
      FileRead([r.line] + rest.lines, rest.end)
  }

  function LineBytes(line: InputLine): seq<byte> {
    EncodeAll(line.text) + line.ending.Bytes()
  }

  function Join(lines: seq<InputLine>): seq<byte> {
    if lines == [] then [] else LineBytes(lines[0]) + Join(lines[1..])
  }

  predicate NoLongLine(content: seq<byte>)
    decreases |content|
  {
    content == [] || (RawLen(content) <= 8_388_608 && NoLongLine(content[RawLen(content)..]))
  }

  /** An ASCII byte never lies inside a multi-byte sequence, so text may be cut on either side of it. */
  lemma {:induction false} CutAtAscii(a: seq<byte>, c: byte, b: seq<byte>)
    requires c < 0x80 && WellFormed(a + [c] + b)
    ensures WellFormed(a) && WellFormed(b)
  {
    var x := a + [c] + b;
    var n := HeadOf(x).len;
    if a == [] {
      assert x[0] == c && x[1..] == b;
    } else {
      assert x[|a|] == c;
      assert n <= |a|;
      assert x[n..] == a[n..] + [c] + b;
      CutAtAscii(a[n..], c, b);
      assert x[..n] == a[..n];
      OneCharIsWellFormed(x, n);
      ScanAfterValid(a[..n], a[n..]);
      assert a == a[..n] + a[n..];
    }
  }

  /** The first line of a well-formed text and what follows it are well formed. */
  lemma FirstLineIsText(b: seq<byte>)
    requires WellFormed(b) && b != []
    ensures WellFormed(SplitEnding(b[..RawLen(b)]).0) && WellFormed(b[RawLen(b)..])
  {
    hide FromUtf8, HeadOf, RawLen;
    var n := RawLen(b);
    var raw, rest := b[..n], b[n..];
    if EndsWithLf(raw) {
      assert b == b[..n - 1] + [LF] + rest;
      CutAtAscii(b[..n - 1], LF, rest);
      assert b[..n - 1] == raw[..n - 1];
      if n >= 2 && raw[n - 2] == CR {
        assert raw[..n - 1] == raw[..n - 2] + [CR] + [];
        CutAtAscii(raw[..n - 2], CR, []);
      }
    } else {
      assert raw == b;
      assert rest == [];
      EncodingIsWellFormed([]);
    }
  }

  lemma CountFirstLine(b: seq<byte>)
    requires b != []
    ensures LineCount(b) == 1 + LineCount(b[RawLen(b)..])
  {
    hide RawLen;
    var n := RawLen(b);
    var raw, rest := b[..n], b[n..];
    assert b == raw + rest;
    TallyStep(raw, rest);
    assert raw == raw[..n - 1] + [raw[n - 1]];
    TallyStep(raw[..n - 1], [raw[n - 1]]);
    assert NoLf(raw[..n - 1]);
    if rest == [] {
      assert b == raw;
    }
  }

  /** `f` is everything `b` holds: as many lines as the preflight counts, and nothing lost between them;
      or the reading ended at an over-long line. */
  predicate ReadsAll(f: FileRead, b: seq<byte>, noLongLine: bool) {
    && f.end == (if noLongLine then NoLine else LineTooLong)
    && (noLongLine ==> |f.lines| == LineCount(b) && Join(f.lines) == b)
  }

  lemma {:induction false} LinesAgree(b: seq<byte>)
    requires WellFormed(b)
    ensures ReadsAll(AllLines(b, false, false), b, NoLongLine(b))
    decreases |b|
  {
    hide FromUtf8, RawLen, LineCount;
    if b == [] {
      NoLinesInNothing();
    } else if RawLen(b) <= MAX_LINE_BYTES {
      var n := RawLen(b);
      FirstLineIsText(b);
      CountFirstLine(b);
      LinesAgree(b[n..]);
      FirstThenRest(b, AllLines(b[n..], false, false));
    }
  }

  lemma FirstThenRest(b: seq<byte>, rest: FileRead)
    requires b != [] && RawLen(b) <= MAX_LINE_BYTES && WellFormed(SplitEnding(b[..RawLen(b)]).0)
    requires rest == AllLines(b[RawLen(b)..], false, false)
    ensures var all := AllLines(b, false, false);
            && all.end == rest.end && |all.lines| == 1 + |rest.lines|
            && Join(all.lines) == b[..RawLen(b)] + Join(rest.lines)
    ensures b == b[..RawLen(b)] + b[RawLen(b)..]
  {
    hide RawLen, SplitEnding, WellFormed, Decode, EndsWithLf;
    var raw := b[..RawLen(b)];
    var line := InputLine(Decode(SplitEnding(raw).0), SplitEnding(raw).1);
    assert NextLine(b, false, false) == Line(line);
    assert LineBytes(line) == raw;
    var all := AllLines(b, false, false);
    hide NextLine, LineBytes;
    assert all.lines == [line] + rest.lines;
    assert all.lines[1..] == rest.lines;
  }

  lemma NoLinesInNothing()
    ensures LineCount([]) == 0 && AllLines([], false, false) == FileRead([], NoLine) && RawLen([]) == 0
  {
  }

  lemma BomHasNoLf(b: seq<byte>)
    ensures RawLen(BOM + b) == 3 + RawLen(b)
  {
    RawLenAcross(BOM, b);
  }

  lemma CutAfterBom(raw: seq<byte>)
    ensures Cut(BOM + raw, true) == Cut(raw, false)
    ensures EndsWithLf(BOM + raw) <==> EndsWithLf(raw)
  {
    hide WellFormed, SplitEnding, EndsWithLf;
    SplitAfterBom(raw);
    var stem := SplitEnding(raw).0;
    assert (BOM + stem)[3..] == stem;
    if stem == [] {
      SplitNothing(raw);
    }
  }

  lemma SplitAfterBom(raw: seq<byte>)
    ensures SplitEnding(BOM + raw) == (BOM + SplitEnding(raw).0, SplitEnding(raw).1)
    ensures EndsWithLf(BOM + raw) <==> EndsWithLf(raw)
  {
    var b, n := BOM + raw, |raw|;
    assert b[2] == 0xBF;
    if n > 0 {
      assert b[n + 2] == raw[n - 1];
      assert b[..n + 2] == BOM + raw[..n - 1];
    }
    if n > 1 {
      assert b[n + 1] == raw[n - 2];
      assert b[..n + 1] == BOM + raw[..n - 2];
    }
  }

  lemma SplitNothing(raw: seq<byte>)
    ensures SplitEnding(raw).0 == [] && SplitEnding(raw).1.NoEnding? <==> raw == []
  {
  }

  /** A byte order mark, or asking for the first line of a file without one, changes nothing else. */
  lemma FirstReadStripsBom(content: seq<byte>)
    requires RawLen(content) <= MAX_LINE_BYTES
    ensures AllLines(content, false, true) == AllLines(StripBom(content), false, false)
    ensures NoLongLine(content) <==> NoLongLine(StripBom(content))
  {
    hide FromUtf8, RawLen;
    if BOM <= content {
      assert content == BOM + content[3..];
      ReadAfterBom(content[3..]);
    } else {
      CutWithoutBom(content);
    }
  }

  lemma ReadAfterBom(body: seq<byte>)
    requires RawLen(BOM + body) <= MAX_LINE_BYTES
    ensures AllLines(BOM + body, false, true) == AllLines(body, false, false)
    ensures NoLongLine(BOM + body) <==> NoLongLine(body)
  {
    hide FromUtf8, RawLen, Cut, EndsWithLf;
    NoLinesInNothing();
    BomHasNoLf(body);
    var n, content := RawLen(body), BOM + body;
    assert content[..n + 3] == BOM + body[..n];
    assert content[n + 3..] == body[n..];
    CutAfterBom(body[..n]);
  }

  lemma CutWithoutBom(content: seq<byte>)
    requires !(BOM <= content)
    ensures Cut(content[..RawLen(content)], true) == Cut(content[..RawLen(content)], false)
  {
    hide FromUtf8, RawLen;
    var raw := content[..RawLen(content)];
    var stem := SplitEnding(raw).0;
    assert stem <= raw <= content;
    assert StripBom(stem) == stem;
  }

  /** What the line reader yields for a file the preflight accepts, read to its end. */
  lemma ReaderAgreesWithPreflight(content: seq<byte>)
    requires WellFormed(StripBom(content)) && RawLen(content) <= 8_388_608
    ensures ReadsAll(AllLines(content, false, true), StripBom(content), NoLongLine(content))
  {
    FirstReadStripsBom(content);
    LinesAgree(StripBom(content));
  }

  /** A first line over the limit, byte order mark included, is refused at once. */
  lemma LongFirstLine(content: seq<byte>, faulty: bool)
    requires RawLen(content) > 8_388_608
    ensures AllLines(content, faulty, true) == FileRead([], LineTooLong)
  {
  }

  // ---- Join and AllLines are inverse to each other ----

  /** A line a reader can produce when `last` says nothing follows it. */
  predicate Readable(line: InputLine, last: bool) {
    && NoLf(EncodeAll(line.text)) && |LineBytes(line)| <= MAX_LINE_BYTES
    && (line.ending.Lf? ==> EncodeAll(line.text) == [] || EncodeAll(line.text)[|EncodeAll(line.text)| - 1] != CR)
    && (line.ending.NoEnding? ==> last && line.text != [])
  }

  predicate AllReadable(lines: seq<InputLine>) {
    forall i :: 0 <= i < |lines| ==> Readable(lines[i], i == |lines| - 1)
  }

  lemma LineLength(line: InputLine, rest: seq<byte>)
    requires Readable(line, rest == [])
    ensures RawLen(LineBytes(line) + rest) == |LineBytes(line)| > 0
    ensures (LineBytes(line) + rest)[..|LineBytes(line)|] == LineBytes(line)
  {
    hide FromUtf8, EncodeAll, RawLen;
    var b := LineBytes(line);
    if line.ending.NoEnding? {
      assert b + rest == b && b + [] == b;
      RawLenAcross(b, []);
      EncodeNonEmpty(line.text);
    } else {
      var head := b[..|b| - 1];
      assert NoLf(head);
      assert b + rest == head + ([LF] + rest);
      RawLenAcross(head, [LF] + rest);
      LineStartsWithLf([LF] + rest);
    }
  }

  lemma CutLineBytes(line: InputLine, last: bool)
    requires Readable(line, last) && LineBytes(line) != []
    ensures Cut(LineBytes(line), false) == Line(line)
  {
    hide FromUtf8, EncodeAll, Readable, SplitEnding, LineBytes, WellFormed;
    DecodeInvertsEncode(line.text);
    EndingIsSplit(line, last);
  }

  lemma EndingIsSplit(line: InputLine, last: bool)
    requires Readable(line, last)
    ensures SplitEnding(LineBytes(line)) == (EncodeAll(line.text), line.ending)
  {
    hide EncodeAll;
    var stem := EncodeAll(line.text);
    match line.ending {
      case NoEnding => assert stem + [] == stem;
      case Lf => assert (stem + [LF])[..|stem|] == stem;
      case CrLf => assert (stem + [CR, LF])[..|stem|] == stem;
    }
  }

  lemma ReadBackOne(line: InputLine, rest: seq<byte>)
    requires Readable(line, rest == [])
    ensures RawLen(LineBytes(line) + rest) == |LineBytes(line)|
    ensures NextLine(LineBytes(line) + rest, false, false) == Line(line)
  {
    LineLength(line, rest);
    CutLineBytes(line, rest == []);
    hide RawLen, Cut, LineBytes;
  }

  lemma EncodeNonEmpty(text: string)
    requires text != []
    ensures EncodeAll(text) != []
  {
  }

  /** Joined lines are read back unchanged. */
  lemma {:induction false} ReadBack(lines: seq<InputLine>)
    requires AllReadable(lines)
    ensures AllLines(Join(lines), false, false) == FileRead(lines, NoLine)
  {
    hide EncodeAll, RawLen, Readable, NextLine, LineBytes, AllLines;
    if lines == [] {
      NoLinesInNothing();
    } else {
      var rest := Join(lines[1..]);
      forall i | 0 <= i < |lines| - 1
        ensures Readable(lines[1..][i], i == |lines| - 2)
      {
        assert lines[1..][i] == lines[i + 1];
      }
      ReadBack(lines[1..]);
      assert |lines| == 1 ==> rest == [];
      LastIsReadable(lines, rest);
      ReadBackMore(lines[0], lines[1..]);
      assert lines == [lines[0]] + lines[1..];
    }
  }

  lemma ReadBackMore(line: InputLine, lines: seq<InputLine>)
    requires Readable(line, Join(lines) == [])
    requires AllLines(Join(lines), false, false) == FileRead(lines, NoLine)
    ensures AllLines(LineBytes(line) + Join(lines), false, false) == FileRead([line] + lines, NoLine)
  {
    hide EncodeAll, RawLen, Readable, NextLine, LineBytes, Join;
    ReadBackOne(line, Join(lines));
    assert (LineBytes(line) + Join(lines))[|LineBytes(line)|..] == Join(lines);
  }

  lemma LastIsReadable(lines: seq<InputLine>, rest: seq<byte>)
    requires lines != [] && AllReadable(lines) && rest == Join(lines[1..])
    ensures Readable(lines[0], rest == [])
  {
    assert |lines| == 1 ==> lines[1..] == [];
    if |lines| > 1 {
      assert Readable(lines[1], 1 == |lines| - 1);
      if lines[1].ending.NoEnding? {
        EncodeNonEmpty(lines[1].text);
      }
      assert LineBytes(lines[1]) != [];
      assert lines[1..][0] == lines[1];
    }
  }
}
