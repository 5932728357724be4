/** One file from its first byte to its translated output: reading lines, windows, writing. */
module FilePipeline {
  import opened Prelude
  import opened Utf8
  import opened FileInput
  import opened FileLines
  import opened EzTransBatches
  import opened EzTransWindow

  const WINDOW_MAX_LINES: nat := 50_000
  const WINDOW_MAX_CHARS: nat := 16 * 1024 * 1024

  datatype WriteType = TranslationOnly | OriginalAndTrans | OriginalTransNewline

  function SeparatorOf(ending: LineEnding): LineEnding {
    if ending.CrLf? then CrLf else Lf
  }

  /** The output of one line, described as the lines a reader of the output sees. */
  function OutputLines(line: InputLine, translated: string, mode: WriteType, hasMore: bool): seq<InputLine> {
    var separator := SeparatorOf(line.ending);
    match mode
    case TranslationOnly => [InputLine(translated, line.ending)]
    case OriginalAndTrans => [InputLine(line.text, separator), InputLine(translated, line.ending)]
    case OriginalTransNewline =>
      if hasMore then [InputLine(line.text, separator), InputLine(translated, separator), InputLine("", separator)]
      else [InputLine(line.text, separator), InputLine(translated, line.ending)]
  }

  /** The lines of a whole output; `more` says whether a later window follows. */
  function AllOutputLines(lines: seq<InputLine>, translated: seq<string>, mode: WriteType, more: bool): seq<InputLine>
    requires |lines| == |translated|
  {
    if lines == [] then [] else
      OutputLines(lines[0], translated[0], mode, |lines| > 1 || more)
      + AllOutputLines(lines[1..], translated[1..], mode, more)
  }

  /** The temporary file; it replaces the final path only when it is persisted. If it is `reliable`,
      writing and persisting succeed. */
  class PendingOutput {
    const reliable: bool
    var written: seq<byte>
    var persisted: bool

    constructor (reliable: bool)
      ensures this.reliable == reliable && written == [] && !persisted
    {
      this.reliable, written, persisted := reliable, [], false;
    }

    /** A failed write may leave part of the data behind. */
    method WriteAll(data: seq<byte>) returns (ok: bool)
      modifies this`written
      ensures (reliable ==> ok) && (ok ==> written == old(written) + data)
    {
      var count: nat :| count <= |data|;
      if reliable {
        count := |data|;
      }
      written := written + data[..count];
      ok := count == |data|;
      assert ok ==> data[..count] == data;
    }

    method Persist() returns (ok: bool)
      modifies this`persisted
      ensures persisted == ok && (reliable ==> ok)
    {
      ok := *;
      ok := ok || reliable;
      persisted := ok;
    }
  }

  method WriteOutput(writer: PendingOutput, original: string, translated: string,
                     mode: WriteType, ending: LineEnding, hasMore: bool) returns (ok: bool)
    modifies writer`written
    ensures writer.reliable ==> ok
    ensures ok ==>
      writer.written == old(writer.written) + Join(OutputLines(InputLine(original, ending), translated, mode, hasMore))
  {
    hide EncodeAll, Join;
    ghost var before := writer.written;
    var separator := ending.Separator();
    ghost var line := InputLine(original, ending);
    if mode.TranslationOnly? {
      JoinOne(InputLine(translated, ending));
      ok := WriteParts(writer, [EncodeAll(translated), ending.Bytes()]);
    } else {
      ok := WriteParts(writer, [EncodeAll(original), separator]);
      if !ok {
        return;
      }
      if mode.OriginalTransNewline? && hasMore {
        JoinThree(InputLine(original, SeparatorOf(ending)), InputLine(translated, SeparatorOf(ending)),
                  InputLine("", SeparatorOf(ending)));
        ok := WriteParts(writer, [EncodeAll(translated), separator]);
        if !ok {
          return;
        }
        ok := WriteParts(writer, [EncodeAll([]), separator]);
        ghost var a, b :=
          LineBytes(InputLine(original, SeparatorOf(ending))), LineBytes(InputLine(translated, SeparatorOf(ending)));
        Associate(before, a, b);
        Associate(before, a + b, LineBytes(InputLine("", SeparatorOf(ending))));
      } else {
        JoinTwo(InputLine(original, SeparatorOf(ending)), InputLine(translated, ending));
        ok := WriteParts(writer, [EncodeAll(translated), ending.Bytes()]);
        Associate(before, LineBytes(InputLine(original, SeparatorOf(ending))),
                  LineBytes(InputLine(translated, ending)));
      }
    }
  }

  /** Two writes in a row. */
  method WriteParts(writer: PendingOutput, parts: seq<seq<byte>>) returns (ok: bool)
    requires |parts| == 2
    modifies writer`written
    ensures writer.reliable ==> ok
    ensures ok ==> writer.written == old(writer.written) + (parts[0] + parts[1])
  {
    Associate(writer.written, parts[0], parts[1]);
    ok := writer.WriteAll(parts[0]);
    if ok {
      ok := writer.WriteAll(parts[1]);
    }
  }

  lemma JoinOne(a: InputLine)
    ensures Join([a]) == LineBytes(a)
  {
    assert [a][1..] == [];
  }

  lemma JoinTwo(a: InputLine, b: InputLine)
    ensures Join([a, b]) == LineBytes(a) + LineBytes(b)
  {
    JoinOne(b);
    assert [a, b][1..] == [b];
  }

  lemma JoinThree(a: InputLine, b: InputLine, c: InputLine)
    ensures Join([a, b, c]) == LineBytes(a) + LineBytes(b) + LineBytes(c)
  {
    JoinTwo(b, c);
    assert [a, b, c][1..] == [b, c];
    Associate(LineBytes(a), LineBytes(b), LineBytes(c));
  }

  lemma {:induction false} JoinConcat(a: seq<InputLine>, b: seq<InputLine>)
    ensures Join(a + b) == Join(a) + Join(b)
  {
    if a == [] {
      assert a + b == b;
    } else {
      assert (a + b)[1..] == a[1..] + b;
      JoinConcat(a[1..], b);
      Associate(LineBytes(a[0]), Join(a[1..]), Join(b));
    }
  }

  lemma {:induction false} OutputConcat(a: seq<InputLine>, ta: seq<string>, b: seq<InputLine>, tb: seq<string>,
                                        mode: WriteType, more: bool)
    requires |a| == |ta| && |b| == |tb|
    ensures AllOutputLines(a + b, ta + tb, mode, more)
         == AllOutputLines(a, ta, mode, b != [] || more) + AllOutputLines(b, tb, mode, more)
  {
    hide OutputLines;
    if a == [] {
      assert a + b == b && ta + tb == tb;
    } else {
      assert (a + b)[1..] == a[1..] + b && (ta + tb)[1..] == ta[1..] + tb;
      OutputConcat(a[1..], ta[1..], b, tb, mode, more);
    }
  }

  function Texts(lines: seq<InputLine>): (r: seq<string>)
    ensures |r| == |lines|
  {
    Map((line: InputLine) => line.text, lines)
  }

  /** The cancel token of a job; once `disarmed` it is never set. */
  method LookAtToken(disarmed: bool) returns (cancelled: bool)
    ensures disarmed ==> !cancelled
  {
    cancelled := *;
    cancelled := cancelled && !disarmed;
  }

  /** Writes one translated window; the cancel token is looked at after every line. */
  method WriteBatch(output: PendingOutput, lines: seq<InputLine>, translated: seq<string>, mode: WriteType,
                    hasMoreAfter: bool, disarmed: bool)
    returns (ok: bool)
    requires |lines| == |translated|
    modifies output`written
    ensures output.reliable && disarmed ==> ok
    ensures ok ==> output.written == old(output.written) + Join(AllOutputLines(lines, translated, mode, hasMoreAfter))
  {
    hide Join, OutputLines;
    ghost var before := output.written;
    NothingWritten(mode, hasMoreAfter || lines != []);
    ok := true;
    for i := 0 to |lines|
      invariant ok
      invariant output.written
             == before + Join(AllOutputLines(lines[..i], translated[..i], mode, i < |lines| || hasMoreAfter))
    {
      ok := WriteOutput(output, lines[i].text, translated[i], mode, lines[i].ending, i + 1 < |lines| || hasMoreAfter);
      var cancelled := LookAtToken(disarmed);
      if !ok || cancelled {
        return false;
      }
      WriteOneMore(before, lines[..i], translated[..i], lines[i], translated[i], mode, i + 1 < |lines| || hasMoreAfter);
      assert lines[..i + 1] == lines[..i] + [lines[i]] && translated[..i + 1] == translated[..i] + [translated[i]];
    }
    assert lines[..|lines|] == lines && translated[..|lines|] == translated;
  }

  lemma NothingWritten(mode: WriteType, more: bool)
    ensures Join(AllOutputLines([], [], mode, more)) == []
  {
  }

  lemma WriteOneMore(before: seq<byte>, lines: seq<InputLine>, translated: seq<string>, line: InputLine,
                     text: string, mode: WriteType, more: bool)
    requires |lines| == |translated|
    ensures before + Join(AllOutputLines(lines, translated, mode, true)) + Join(OutputLines(line, text, mode, more))
         == before + Join(AllOutputLines(lines + [line], translated + [text], mode, more))
  {
    hide OutputLines, Join;
    OutputConcat(lines, translated, [line], [text], mode, more);
    assert AllOutputLines([line], [text], mode, more) == OutputLines(line, text, mode, more) + [] by {
      assert [line][1..] == [] && [text][1..] == [];
    }
    assert OutputLines(line, text, mode, more) + [] == OutputLines(line, text, mode, more);
    JoinConcat(AllOutputLines(lines, translated, mode, true), OutputLines(line, text, mode, more));
    Associate(before, Join(AllOutputLines(lines, translated, mode, true)), Join(OutputLines(line, text, mode, more)));
  }

  predicate WindowFull(lines: seq<InputLine>, line: InputLine) {
    && lines != []
    && (|lines| >= WINDOW_MAX_LINES || Weight(Texts(lines)) + 1 + |line.text| > WINDOW_MAX_CHARS)
  }

  /** A window is closed in front of a line if it has 50,000 lines or would pass 16 Mi characters with it. */
  lemma WindowFullIff(lines: seq<InputLine>, line: InputLine)
    ensures WindowFull(lines, line) <==>
      lines != [] && (|lines| >= 50_000 || |Text(Texts(lines) + [line.text])| > 16_777_216)
  {
    hide Weight, Text, Texts;
    Append(Texts(lines), line.text);
    WeightIsLength(Texts(lines) + [line.text]);
  }

  /** Gathers lines until the window is full or the file ends. `next` is the line that did not fit. */
  method CollectWindow(reader: BufReader, firstLine: InputLine)
    returns (lines: seq<InputLine>, next: Option<InputLine>, ok: bool)
    requires reader.Valid()
    modifies reader
    ensures reader.Valid()
    ensures ok ==> lines != [] && |lines| <= WINDOW_MAX_LINES
    ensures ok && |lines| >= 2 ==> Weight(Texts(lines)) <= WINDOW_MAX_CHARS
    ensures ok && next.None? ==>
      FileRead([firstLine], NoLine).Then(AllLines(old(reader.Unread()), reader.faulty, false)) ==
        FileRead(lines, NoLine)
    ensures ok && next.Some? ==> WindowFull(lines, next.value)
    ensures ok && next.Some? ==>
      FileRead([firstLine], NoLine).Then(AllLines(old(reader.Unread()), reader.faulty, false))
      == FileRead(lines + [next.value], NoLine).Then(AllLines(reader.Unread(), reader.faulty, false))
    ensures !ok ==> AllLines(old(reader.Unread()), reader.faulty, false).end != NoLine
  {
    hide Weight, RawLen, NextLine;
    lines, next := [], Some(firstLine);
    var windowChars := 0;
    ghost var goal := FileRead([firstLine], NoLine).Then(AllLines(reader.Unread(), reader.faulty, false));
    EmptyWindow();
    while true
      invariant reader.Valid() && next.Some?
      invariant goal == FileRead(lines + [next.value], NoLine).Then(AllLines(reader.Unread(), reader.faulty, false))
      invariant windowChars == Weight(Texts(lines)) && |lines| <= WINDOW_MAX_LINES
      invariant |lines| >= 2 ==> windowChars <= WINDOW_MAX_CHARS
      decreases |AllLines(reader.Unread(), reader.faulty, false).lines|
    {
      var line := next.value;
      if WindowFull(lines, line) {
        return lines, next, true;
      }
      AddText(lines, line);
      windowChars := windowChars + Separator(Texts(lines)) + |line.text|;
      lines := lines + [line];
      ghost var content := reader.Unread();
      var read := ReadInputLine(reader, false);
      AllLinesStep(content, reader.faulty);
      if !read.Line? {
        next := None;
        ok := read.NoLine?;
        return;
      }
      next := Some(read.line);
      ThenStep(lines, read.line, AllLines(reader.Unread(), reader.faulty, false));
    }
  }

  lemma EmptyWindow()
    ensures Weight(Texts([])) == 0
  {
  }

  lemma AddText(lines: seq<InputLine>, line: InputLine)
    ensures Weight(Texts(lines + [line])) == Weight(Texts(lines)) + Separator(Texts(lines)) + |line.text|
  {
    assert Texts(lines + [line]) == Texts(lines) + [line.text];
    Append(Texts(lines), line.text);
  }

  lemma AllLinesStep(content: seq<byte>, faulty: bool)
    ensures var read, all := NextLine(content, faulty, false), AllLines(content, faulty, false);
            all == if read.Line? then
                     FileRead([read.line], NoLine).Then(AllLines(content[RawLen(content)..], faulty, false))
                   else FileRead([], read)
  {
  }

  lemma ThenStep(lines: seq<InputLine>, line: InputLine, rest: FileRead)
    ensures FileRead(lines, NoLine).Then(FileRead([line], NoLine).Then(rest)) ==
      FileRead(lines + [line], NoLine).Then(rest)
  {
    Associate(lines, [line], rest.lines);
  }

  datatype FileResult = Done | Aborted

  /** The translation of every line on its own. */
  function TranslatedTexts(lines: seq<InputLine>, noTransLinefeed: bool, translate: string -> string,
                           postprocess: string -> string): (r: seq<string>)
    ensures |r| == |lines|
  {
    Map(t => LineMap(t, noTransLinefeed, translate, postprocess), Texts(lines))
  }

  /** What a run of lines contributes to the output. */
  function Rendering(lines: seq<InputLine>, noTransLinefeed: bool, translate: string -> string,
                     postprocess: string -> string,
                     mode: WriteType, more: bool): seq<byte> {
    Join(AllOutputLines(lines, TranslatedTexts(lines, noTransLinefeed, translate, postprocess), mode, more))
  }

  lemma TranslatedConcat(a: seq<InputLine>, b: seq<InputLine>, noTransLinefeed: bool, translate: string -> string,
                         postprocess: string -> string)
    ensures TranslatedTexts(a + b, noTransLinefeed, translate, postprocess)
         == TranslatedTexts(a, noTransLinefeed, translate, postprocess)
           + TranslatedTexts(b, noTransLinefeed, translate, postprocess)
  {
  }

  /** Translates one window and writes it. */
  method ProcessWindow(
    output: PendingOutput, lines: seq<InputLine>, mode: WriteType, more: bool, noTransLinefeed: bool, disarmed: bool,
    translator: BatchTranslator, ghost translate: string -> string, postprocess: string -> string,
    cache: BoundedTranslationCache)
    returns (ok: bool)
    requires Faithful(translator.answer, translate) && Sound(cache.entries, translate, postprocess)
    modifies output`written, translator, cache
    ensures Sound(cache.entries, translate, postprocess)
    ensures output.reliable && disarmed && AlwaysAnswers(translator.answer) ==> ok
    ensures ok ==>
      output.written == old(output.written) + Rendering(lines, noTransLinefeed, translate, postprocess, mode, more)
  {
    hide FaithfulReply, Sound, LineMap, WindowContract, Join, AllOutputLines, Misses;
    ghost var before, call := cache.entries, |translator.sent|;
    var outcome, batches := TranslateWindow(Texts(lines), noTransLinefeed, translator, postprocess, cache);
    WindowIsLineMap(Texts(lines), noTransLinefeed, translator.processCount, translate, postprocess, before,
                    cache.entries, batches, translator.answer(call, batches), outcome);
    if !outcome.Translated? {
      return false;
    }
    ok := WriteBatch(output, lines, outcome.lines, mode, more, disarmed);
  }

  /** Goes through the rest of a file window by window, starting with the line read already. */
  method ProcessWindows(
    reader: BufReader, firstLine: InputLine, output: PendingOutput, mode: WriteType, noTransLinefeed: bool,
    disarmed: bool, translator: BatchTranslator, ghost translate: string -> string, postprocess: string -> string,
    cache: BoundedTranslationCache)
    returns (ok: bool)
    requires reader.Valid()
    requires Faithful(translator.answer, translate) && Sound(cache.entries, translate, postprocess)
    modifies reader, output`written, translator, cache
    ensures Sound(cache.entries, translate, postprocess)
    ensures ok ==> AllLines(old(reader.Unread()), reader.faulty, false).end.NoLine?
    ensures output.reliable && disarmed && AlwaysAnswers(translator.answer) ==>
      (ok <==> AllLines(old(reader.Unread()), reader.faulty, false).end.NoLine?)
    ensures ok ==>
      var lines := [firstLine] + AllLines(old(reader.Unread()), reader.faulty, false).lines;
      output.written == old(output.written) + Rendering(lines, noTransLinefeed, translate, postprocess, mode, false)
  {
    hide Faithful, Sound, AlwaysAnswers, RawLen, NextLine, Rendering, AllLines;
    ghost var all := FileRead([firstLine], NoLine).Then(AllLines(reader.Unread(), reader.faulty, false));
    ghost var before, done: seq<InputLine> := output.written, [];
    var next := Some(firstLine);
    NothingRendered(noTransLinefeed, translate, postprocess, mode, true);
    while next.Some?
      invariant reader.Valid() && Sound(cache.entries, translate, postprocess)
      invariant all == match next case None => FileRead(done, NoLine)
                       case Some(l) =>
                         FileRead(done + [l], NoLine).Then(AllLines(reader.Unread(), reader.faulty, false))
      invariant output.written == before + Rendering(done, noTransLinefeed, translate, postprocess, mode, next.Some?)
      decreases |all.lines| - |done|
    {
      var lines;
      ghost var line, rest := next.value, AllLines(reader.Unread(), reader.faulty, false);
      lines, next, ok := CollectWindow(reader, next.value);
      var cancelled := LookAtToken(disarmed);
      if !ok || cancelled {
        return false;
      }
      ok := ProcessWindow(output, lines, mode, next.Some?, noTransLinefeed, disarmed, translator, translate,
                          postprocess, cache);
      if !ok {
        return;
      }
      RenderWindow(before, done, lines, noTransLinefeed, translate, postprocess, mode, next.Some?);
      ThenWindow(done, line, rest, lines, next, AllLines(reader.Unread(), reader.faulty, false));
      done := done + lines;
    }
    ok := true;
  }

  /** Windows, cache and batches cannot be seen in the output: it is the byte order mark followed by
      the rendering of every line of the file, each translated on its own. */
  method ProcessSingleFile(
    reader: BufReader, output: PendingOutput, mode: WriteType, noTransLinefeed: bool, disarmed: bool,
    translator: BatchTranslator, ghost translate: string -> string, postprocess: string -> string,
    cache: BoundedTranslationCache)
    returns (r: FileResult)
    requires reader.Valid() && output.written == [] && !output.persisted
    requires Faithful(translator.answer, translate) && Sound(cache.entries, translate, postprocess)
    modifies reader, output, translator, cache
    ensures Sound(cache.entries, translate, postprocess)
    ensures output.persisted <==> r.Done?
    ensures r.Done? ==> AllLines(old(reader.Unread()), reader.faulty, true).end.NoLine?
    ensures output.reliable && disarmed && AlwaysAnswers(translator.answer) ==>
      (r.Done? <==> AllLines(old(reader.Unread()), reader.faulty, true).end.NoLine?)
    ensures r.Done? ==>
      var lines := AllLines(old(reader.Unread()), reader.faulty, true).lines;
      output.written == BOM + Rendering(lines, noTransLinefeed, translate, postprocess, mode, false)
    ensures r.Done? ==>
      var lines := AllLines(old(reader.Unread()), reader.faulty, true).lines;
      IsFileOutput(output.written, lines, noTransLinefeed, translate, postprocess, mode)
  {
    hide *;
    ghost var content := reader.Unread();
    var ok := output.WriteAll(BOM);
    if !ok {
      return Aborted;
    }
    var read := ReadInputLine(reader, true);
    AllLinesFirst(content, reader.faulty);
    if read.Line? {
      ok := ProcessWindows(reader, read.line, output, mode, noTransLinefeed, disarmed, translator, translate,
                           postprocess, cache);
    } else {
      NothingRendered(noTransLinefeed, translate, postprocess, mode, false);
      ok := read.NoLine?;
    }
    if !ok {
      return Aborted;
    }
    RenderingIsOutput(AllLines(content, reader.faulty, true).lines, noTransLinefeed, translate, postprocess, mode);
    var persisted := output.Persist();
    r := if persisted then Done else Aborted;
  }

  lemma ThenWindow(done: seq<InputLine>, line: InputLine, rest: FileRead, lines: seq<InputLine>,
                   next: Option<InputLine>, later: FileRead)
    requires FileRead([line], NoLine).Then(rest) ==
      match next case None => FileRead(lines, NoLine) case Some(l) => FileRead(lines + [l], NoLine).Then(later)
    ensures FileRead(done + [line], NoLine).Then(rest) ==
      match next
      case None => FileRead(done + lines, NoLine)
      case Some(l) => FileRead(done + lines + [l], NoLine).Then(later)
  {
    Associate(done, [line], rest.lines);
    if next.Some? {
      Associate(done, lines, [next.value]);
      Associate(done, lines + [next.value], later.lines);
    }
  }

  lemma NothingRendered(noTransLinefeed: bool, translate: string -> string, postprocess: string -> string,
                        mode: WriteType, more: bool)
    ensures Rendering([], noTransLinefeed, translate, postprocess, mode, more) == []
  {
  }

  lemma AllLinesFirst(content: seq<byte>, faulty: bool)
    ensures var read, all := NextLine(content, faulty, true), AllLines(content, faulty, true);
            if read.Line? then
              var rest := AllLines(content[RawLen(content)..], faulty, false);
              all.lines == [read.line] + rest.lines && all.end == rest.end
            else all.lines == [] && all.end == read
  {
  }

  lemma RenderWindow(before: seq<byte>, done: seq<InputLine>, lines: seq<InputLine>, noTransLinefeed: bool,
                     translate: string -> string, postprocess: string -> string, mode: WriteType, more: bool)
    requires lines != []
    ensures before + Rendering(done, noTransLinefeed, translate, postprocess, mode, true)
                   + Rendering(lines, noTransLinefeed, translate, postprocess, mode, more)
         == before + Rendering(done + lines, noTransLinefeed, translate, postprocess, mode, more)
  {
    hide Join, OutputLines, TranslatedTexts;
    var td := TranslatedTexts(done, noTransLinefeed, translate, postprocess);
    var tl := TranslatedTexts(lines, noTransLinefeed, translate, postprocess);
    TranslatedConcat(done, lines, noTransLinefeed, translate, postprocess);
    OutputConcat(done, td, lines, tl, mode, more);
    JoinConcat(AllOutputLines(done, td, mode, true), AllOutputLines(lines, tl, mode, more));
    Associate(before, Join(AllOutputLines(done, td, mode, true)), Join(AllOutputLines(lines, tl, mode, more)));
  }

  // ---- what the output means ----

  function EndingBytes(ending: LineEnding): seq<byte> {
    match ending
    case NoEnding => []
    case Lf => [10]
    case CrLf => [13, 10]
  }

  /** What stands in the output for one line: its translation, or the line and its translation below, with an
      empty line behind them where that is wanted and something follows. */
  function LineOutput(line: InputLine, translated: string, mode: WriteType, last: bool): seq<byte> {
    var newline: seq<byte> := if line.ending == CrLf then [13, 10] else [10];
    if mode == TranslationOnly then EncodeAll(translated) + EndingBytes(line.ending)
    else if mode == OriginalTransNewline && !last then
      EncodeAll(line.text) + newline + EncodeAll(translated) + newline + newline
    else EncodeAll(line.text) + newline + EncodeAll(translated) + EndingBytes(line.ending)
  }

  lemma OutputLineBytes(line: InputLine, translated: string, mode: WriteType, more: bool)
    ensures Join(OutputLines(line, translated, mode, more)) == LineOutput(line, translated, mode, !more)
  {
    hide EncodeAll, Join;
    var s := SeparatorOf(line.ending);
    var a, b := InputLine(line.text, s), InputLine(translated, s);
    match mode {
      case TranslationOnly => JoinOne(InputLine(translated, line.ending));
      case OriginalAndTrans =>
        JoinTwo(a, InputLine(translated, line.ending));
        Associate(EncodeAll(line.text) + s.Bytes(), EncodeAll(translated), line.ending.Bytes());
      case OriginalTransNewline =>
        if more {
          JoinThree(a, b, InputLine("", s));
          NothingEncoded(s.Bytes());
          Associate(EncodeAll(line.text) + s.Bytes(), EncodeAll(translated), s.Bytes());
        } else {
          JoinTwo(a, InputLine(translated, line.ending));
          Associate(EncodeAll(line.text) + s.Bytes(), EncodeAll(translated), line.ending.Bytes());
        }
    }
  }

  lemma NothingEncoded(rest: seq<byte>)
    ensures EncodeAll("") + rest == rest
  {
  }

  /** The outputs of the lines one after the other, each with what the line becomes. */
  ghost predicate AreLineOutputs(parts: seq<seq<byte>>, results: seq<string>, lines: seq<InputLine>,
                                 noTransLinefeed: bool, translate: string -> string, postprocess: string -> string,
                                 mode: WriteType) {
    && |parts| == |results| == |lines|
    && forall i :: 0 <= i < |lines| ==>
         && IsLineResult(lines[i].text, noTransLinefeed, translate, postprocess, results[i])
         && parts[i] == LineOutput(lines[i], results[i], mode, i == |lines| - 1)
  }

  /** A byte order mark and then the output of every line. */
  ghost predicate IsFileOutput(written: seq<byte>, lines: seq<InputLine>, noTransLinefeed: bool,
                               translate: string -> string, postprocess: string -> string, mode: WriteType) {
    exists parts: seq<seq<byte>>, results: seq<string> ::
      && AreLineOutputs(parts, results, lines, noTransLinefeed, translate, postprocess, mode)
      && written == [0xEF, 0xBB, 0xBF] + Flatten(parts)
  }

  lemma {:induction false} JoinOfOutputs(lines: seq<InputLine>, translated: seq<string>, mode: WriteType)
    returns (parts: seq<seq<byte>>)
    requires |lines| == |translated|
    ensures |parts| == |lines| && Flatten(parts) == Join(AllOutputLines(lines, translated, mode, false))
    ensures forall i :: 0 <= i < |lines| ==> parts[i] == LineOutput(lines[i], translated[i], mode, i == |lines| - 1)
    decreases |lines|
  {
    parts := [];
    if lines != [] {
      var rest := JoinOfOutputs(lines[1..], translated[1..], mode);
      hide OutputLines, Join, LineOutput;
      parts := [LineOutput(lines[0], translated[0], mode, |lines| == 1)] + rest;
      OutputLineBytes(lines[0], translated[0], mode, |lines| > 1);
      JoinConcat(OutputLines(lines[0], translated[0], mode, |lines| > 1),
                 AllOutputLines(lines[1..], translated[1..], mode, false));
      assert parts[1..] == rest;
    } else {
      NothingWritten(mode, false);
    }
  }

  lemma RenderingIsOutput(lines: seq<InputLine>, noTransLinefeed: bool, translate: string -> string,
                          postprocess: string -> string, mode: WriteType)
    ensures IsFileOutput(BOM + Rendering(lines, noTransLinefeed, translate, postprocess, mode, false), lines,
                         noTransLinefeed, translate, postprocess, mode)
  {
    hide Join, AllOutputLines, LineOutput, NeedsTranslation, ShouldTranslate;
    var results := TranslatedTexts(lines, noTransLinefeed, translate, postprocess);
    var parts := JoinOfOutputs(lines, results, mode);
    forall i | 0 <= i < |lines|
      ensures IsLineResult(lines[i].text, noTransLinefeed, translate, postprocess, results[i])
    {
      NeedsTranslationIff(lines[i].text, noTransLinefeed);
    }
    assert AreLineOutputs(parts, results, lines, noTransLinefeed, translate, postprocess, mode);
  }

  lemma {:induction false} TranslationOnlyIsJoin(lines: seq<InputLine>, more: bool)
    ensures AllOutputLines(lines, Texts(lines), TranslationOnly, more) == lines
  {
    if lines != [] {
      assert Texts(lines)[1..] == Texts(lines[1..]);
      TranslationOnlyIsJoin(lines[1..], more);
    }
  }

  /** With an identity translator the output is the file again, with exactly one byte order mark. */
  lemma IdentityReproducesFile(content: seq<byte>, noTransLinefeed: bool, translate: string -> string,
                               postprocess: string -> string)
    requires WellFormed(StripBom(content)) && RawLen(content) <= MAX_LINE_BYTES && NoLongLine(content)
    requires forall t :: postprocess(translate(t)) == t
    ensures Rendering(AllLines(content, false, true).lines, noTransLinefeed, translate, postprocess, TranslationOnly,
                      false)
         == StripBom(content)
  {
    hide RawLen, NextLine;
    var all := AllLines(content, false, true);
    ReaderAgreesWithPreflight(content);
    assert TranslatedTexts(all.lines, noTransLinefeed, translate, postprocess) == Texts(all.lines);
    TranslationOnlyIsJoin(all.lines, false);
  }

  /** An output, read again as an input, shows exactly the lines that were written. */
  lemma OutputReadsBack(lines: seq<InputLine>, translated: seq<string>, mode: WriteType)
    requires |lines| == |translated| && AllReadable(AllOutputLines(lines, translated, mode, false))
    requires RawLen(BOM + Join(AllOutputLines(lines, translated, mode, false))) <= MAX_LINE_BYTES
    ensures AllLines(BOM + Join(AllOutputLines(lines, translated, mode, false)), false, true)
         == FileRead(AllOutputLines(lines, translated, mode, false), NoLine)
  {
    hide RawLen, NextLine;
    var written := Join(AllOutputLines(lines, translated, mode, false));
    ReadBack(AllOutputLines(lines, translated, mode, false));
    FirstReadStripsBom(BOM + written);
    assert StripBom(BOM + written) == written;
  }
}
