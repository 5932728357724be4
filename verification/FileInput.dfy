/** Reading a translation input: the streaming preflight, and the line reader used afterwards. */
module FileInput {
  import opened Prelude
  import opened Utf8

  const LF: byte := 0x0A
  const CR: byte := 0x0D
  const BOM: seq<byte> := [0xEF, 0xBB, 0xBF]
  const MAX_LINE_BYTES: nat := 8 * 1024 * 1024

  function StripBom(b: seq<byte>): seq<byte> {
    if BOM <= b then b[3..] else b
  }

  /** One line per newline, plus one for an unterminated tail. */
  function LineCount(body: seq<byte>): nat {
    Newlines(body) + if body != [] && !EndsWithLf(body) then 1 else 0
  }

  function Newlines(b: seq<byte>): nat {
    multiset(b)[LF]
  }

  predicate EndsWithLf(b: seq<byte>) {
    b != [] && b[|b| - 1] == LF
  }

  lemma TallyStep(body: seq<byte>, chunk: seq<byte>)
    ensures Newlines(body + chunk) == Newlines(body) + Newlines(chunk)
    ensures EndsWithLf(body + chunk) <==> if chunk == [] then EndsWithLf(body) else EndsWithLf(chunk)
  {
    if chunk == [] {
      assert body + chunk == body;
    }
  }

  // ---- preflight ----

  /** What one `read` call returns; a file ends with the list or with an empty read. */
  datatype ReadResult = Bytes(data: seq<byte>) | Failed

  datatype Stop = AtEof | AtCancel | AtFault

  datatype Preflight = Counted(lines: nat) | Cancelled | InputFailed | EncodingFailed(byteOffset: nat)

  /** The reason, if any, why read number `i` does not deliver a chunk. The cancel token is seen
      raised from check number `cancelAt` on. */
  function StopAt(source: seq<ReadResult>, cancelAt: nat, i: nat): Option<Stop> {
    if cancelAt <= i then Some(AtCancel)
    else if i >= |source| then Some(AtEof)
    else if source[i].Failed? then Some(AtFault)
    else if |source[i].data| == 0 then Some(AtEof)
    else None
  }

  /** A byte order mark is removed from the first chunk only. */
  function Chunk(source: seq<ReadResult>, i: nat): seq<byte>
    requires i < |source| && source[i].Bytes?
  {
    if i == 0 then StripBom(source[i].data) else source[i].data
  }

  /** The body bytes delivered from read number `i` on. */
  function BodyFrom(source: seq<ReadResult>, cancelAt: nat, i: nat): seq<byte>
    decreases |source| - i
  {
    if StopAt(source, cancelAt, i).Some? then [] else Chunk(source, i) + BodyFrom(source, cancelAt, i + 1)
  }

  /** Why reading stops, from read number `i` on. */
  function StopFrom(source: seq<ReadResult>, cancelAt: nat, i: nat): Stop
    decreases |source| - i
  {
    match StopAt(source, cancelAt, i)
    case Some(stop) => stop
    case None => StopFrom(source, cancelAt, i + 1)
  }

  /** The answer for a whole body, with no chunks in sight. */
  function Verdict(body: seq<byte>, stop: Stop): Preflight {
    match FromUtf8(body)
    case Invalid(k) => EncodingFailed(k)
    case Incomplete(k) => if stop.AtEof? then EncodingFailed(k) else Interrupted(stop)
    case Valid => if stop.AtEof? then Counted(LineCount(body)) else Interrupted(stop)
  }

  function Interrupted(stop: Stop): Preflight {
    if stop.AtCancel? then Cancelled else InputFailed
  }

  /** `pending` is exactly the unfinished sequence at the end of `body`, and all before it is well formed. */
  predicate Carries(body: seq<byte>, pending: seq<byte>) {
    match FromUtf8(body)
    case Valid => pending == []
    case Incomplete(k) => pending == body[k..]
    case Invalid(_) => false
  }

  /** Scanning the carried bytes and the new chunk is scanning the whole body so far. */
  lemma CarriedScan(body: seq<byte>, pending: seq<byte>, chunk: seq<byte>)
    requires Carries(body, pending)
    ensures |pending| <= |body|
    ensures FromUtf8(body + chunk) == FromUtf8(pending + chunk).Shift(|body| - |pending|)
  {
    hide FromUtf8, HeadOf;
    if pending == [] {
      assert pending + chunk == chunk;
      ScanAfterValid(body, chunk);
    } else {
      SplitAtError(body);
      var head := body[..FromUtf8(body).validUpTo];
      assert head + pending == body;
      ScanAfterHead(head, pending, chunk);
    }
  }

  lemma ScanAfterHead(head: seq<byte>, pending: seq<byte>, chunk: seq<byte>)
    requires WellFormed(head)
    ensures FromUtf8((head + pending) + chunk) == FromUtf8(pending + chunk).Shift(|head|)
  {
    hide FromUtf8;
    ScanAfterValid(head, pending + chunk);
    Associate(head, pending, chunk);
  }

  lemma NextCarry(body: seq<byte>, pending: seq<byte>, chunk: seq<byte>)
    requires Carries(body, pending)
    ensures FromUtf8(pending + chunk).Valid? ==> Carries(body + chunk, [])
    ensures FromUtf8(pending + chunk).Incomplete? ==>
      Carries(body + chunk, (pending + chunk)[FromUtf8(pending + chunk).validUpTo..])
  {
    CarriedScan(body, pending, chunk);
    if FromUtf8(pending + chunk).Incomplete? {
      var k := FromUtf8(pending + chunk).validUpTo;
      var skip := |body| - |pending|;
      TailOfConcat(body, pending, chunk, skip + k);
    }
  }

  lemma TailOfConcat(body: seq<byte>, pending: seq<byte>, chunk: seq<byte>, k: nat)
    requires |body| - |pending| <= k <= |body| + |chunk|
    requires |pending| <= |body| && pending == body[|body| - |pending|..]
    ensures (body + chunk)[k..] == (pending + chunk)[k - (|body| - |pending|)..]
  {
  }

  lemma NextChunk(body: seq<byte>, source: seq<ReadResult>, cancelAt: nat, i: nat)
    requires StopAt(source, cancelAt, i).None?
    ensures body + BodyFrom(source, cancelAt, i) == (body + Chunk(source, i)) + BodyFrom(source, cancelAt, i + 1)
    ensures StopFrom(source, cancelAt, i) == StopFrom(source, cancelAt, i + 1)
  {
    Associate(body, Chunk(source, i), BodyFrom(source, cancelAt, i + 1));
  }

  /** The running state of the preflight: carried bytes and the three counters. */
  datatype Tally = Tally(pending: seq<byte>, totalBodyBytes: nat, newlineCount: nat, lastWasNewline: bool)

  predicate Tracks(t: Tally, body: seq<byte>) {
    && Carries(body, t.pending)
    && t.totalBodyBytes == |body| && t.newlineCount == Newlines(body)
    && (t.lastWasNewline <==> EndsWithLf(body))
  }

  /** Counts a chunk and tries to decode the carried bytes together with it. */
  method FeedChunk(ghost body: seq<byte>, t: Tally, chunk: seq<byte>) returns (next: Tally, invalidAt: Option<nat>)
    requires Tracks(t, body)
    ensures invalidAt.None? ==> Tracks(next, body + chunk)
    ensures invalidAt.Some? ==> FromUtf8(body + chunk) == Invalid(invalidAt.value)
  {
    TallyStep(body, chunk);
    CarriedScan(body, t.pending, chunk);
    NextCarry(body, t.pending, chunk);
    var pending, totalBodyBytes := t.pending + chunk, t.totalBodyBytes + |chunk|;
    var lastWasNewline := if chunk == [] then t.lastWasNewline else EndsWithLf(chunk);
    match FromUtf8(pending) {
      case Valid => pending := [];
      case Incomplete(validUpTo) => pending := pending[validUpTo..];
      case Invalid(validUpTo) => return t, Some(totalBodyBytes - |pending| + validUpTo);
    }
    return Tally(pending, totalBodyBytes, t.newlineCount + Newlines(chunk), lastWasNewline), None;
  }

  /** The answer once reading has stopped. */
  function Conclude(stop: Stop, t: Tally): Preflight
    requires |t.pending| <= t.totalBodyBytes
  {
    if !stop.AtEof? then Interrupted(stop)
    else if t.pending != [] then EncodingFailed(t.totalBodyBytes - |t.pending|)
    else Counted(t.newlineCount + if t.totalBodyBytes > 0 && !t.lastWasNewline then 1 else 0)
  }

  lemma ConcludeIsVerdict(t: Tally, body: seq<byte>, stop: Stop)
    requires Tracks(t, body)
    ensures |t.pending| <= t.totalBodyBytes && Conclude(stop, t) == Verdict(body, stop)
  {
  }

  lemma NothingRead()
    ensures Tracks(Tally([], 0, 0, false), [])
  {
  }

  method ValidateAndCountReader(source: seq<ReadResult>, cancelAt: nat) returns (r: Preflight)
    ensures r == Verdict(BodyFrom(source, cancelAt, 0), StopFrom(source, cancelAt, 0))
  {
    hide FromUtf8, Tracks;
    var t := Tally([], 0, 0, false);
    NothingRead();
    var i: nat, firstChunk := 0, true;
    ghost var body: seq<byte> := [];
    ghost var whole, stop := BodyFrom(source, cancelAt, 0), StopFrom(source, cancelAt, 0);
    while StopAt(source, cancelAt, i).None?
      invariant firstChunk <==> i == 0
      invariant whole == body + BodyFrom(source, cancelAt, i) && stop == StopFrom(source, cancelAt, i)
      invariant Tracks(t, body)
      decreases |source| - i
    {
      var chunk := if firstChunk then StripBom(source[i].data) else source[i].data;
      firstChunk := false;
      NextChunk(body, source, cancelAt, i);
      var invalidAt;
      t, invalidAt := FeedChunk(body, t, chunk);
      body, i := body + chunk, i + 1;
      if invalidAt.Some? {
        InvalidIsFinal(body, BodyFrom(source, cancelAt, i));
        return EncodingFailed(invalidAt.value);
      }
    }
    assert whole == body;
    ConcludeIsVerdict(t, body, stop);
    r := Conclude(StopAt(source, cancelAt, i).value, t);
  }

  // ---- the answer, in terms of the reads ----

  /** Read number `i` is made and delivers something. */
  predicate Delivers(source: seq<ReadResult>, cancelAt: nat, i: nat) {
    i < cancelAt && i < |source| && source[i].Bytes? && source[i].data != []
  }

  /** The first `n` reads deliver, and the next one is cancelled, fails, or finds the end. */
  predicate StopsAfter(source: seq<ReadResult>, cancelAt: nat, n: nat) {
    (forall i :: 0 <= i < n ==> Delivers(source, cancelAt, i)) && !Delivers(source, cancelAt, n)
  }

  function DataOf(read: ReadResult): seq<byte> {
    if read.Bytes? then read.data else []
  }

  /** What the first `n` reads delivered. */
  function DeliveredBytes(source: seq<ReadResult>, n: nat): seq<byte>
    requires n <= |source|
  {
    if n == 0 then [] else DeliveredBytes(source, n - 1) + DataOf(source[n - 1])
  }

  /** A cancelled check is reported as such, a failed read as an input error, and only a file that was read to
      its end is counted; bytes that cannot be text are reported before any of these. */
  ghost predicate IsAnswer(source: seq<ReadResult>, cancelAt: nat, n: nat, body: seq<byte>, r: Preflight) {
    if FromUtf8(body).Invalid? then r == EncodingFailed(FromUtf8(body).validUpTo)
    else if n == cancelAt then r == Cancelled
    else if n < |source| && source[n] == Failed then r == InputFailed
    else if WellFormed(body) then
      r == Counted(multiset(body)[10] + if body != [] && body[|body| - 1] != 10 then 1 else 0)
    else r.EncodingFailed?
  }

  /** The answer for every sequence of reads. The body is what was delivered, without a byte order mark at the
      beginning of the first read. */
  lemma AnswerMeaning(source: seq<ReadResult>, cancelAt: nat) returns (n: nat, body: seq<byte>)
    ensures StopsAfter(source, cancelAt, n) && n <= |source|
    ensures n > 0 ==>
      DeliveredBytes(source, n) == (if [0xEF, 0xBB, 0xBF] <= DataOf(source[0]) then [0xEF, 0xBB, 0xBF] else []) + body
    ensures n == 0 ==> body == []
    ensures IsAnswer(source, cancelAt, n, body, Verdict(BodyFrom(source, cancelAt, 0), StopFrom(source, cancelAt, 0)))
  {
    hide FromUtf8, BodyFrom, StopFrom, DeliveredBytes, IsAnswer, Verdict;
    n := CountReads(source, cancelAt, 0);
    body := BodyFrom(source, cancelAt, 0);
    forall i | 0 <= i < n
      ensures Delivers(source, cancelAt, i)
    {
      assert StopAt(source, cancelAt, i).None?;
    }
    BodyDelivered(source, cancelAt, n, n);
    VerdictIsAnswer(source, cancelAt, n, body);
  }

  lemma VerdictIsAnswer(source: seq<ReadResult>, cancelAt: nat, n: nat, body: seq<byte>)
    requires StopAt(source, cancelAt, n).Some? && n <= cancelAt && n <= |source|
    ensures IsAnswer(source, cancelAt, n, body, Verdict(body, StopAt(source, cancelAt, n).value))
  {
    hide FromUtf8;
    match FromUtf8(body) {
      case Valid =>
      case Incomplete(_) =>
      case Invalid(_) =>
    }
  }

  lemma {:induction false} CountReads(source: seq<ReadResult>, cancelAt: nat, i: nat) returns (n: nat)
    requires i <= |source| && i <= cancelAt
    ensures i <= n <= |source| && n <= cancelAt && (forall k :: i <= k < n ==> StopAt(source, cancelAt, k).None?)
    ensures StopAt(source, cancelAt, n).Some? && StopFrom(source, cancelAt, i) == StopAt(source, cancelAt, n).value
    decreases |source| - i
  {
    if StopAt(source, cancelAt, i).Some? {
      n := i;
    } else {
      n := CountReads(source, cancelAt, i + 1);
    }
  }

  lemma {:induction false} BodyDelivered(source: seq<ReadResult>, cancelAt: nat, n: nat, i: nat)
    requires i <= n <= |source| && (forall k :: 0 <= k < n ==> StopAt(source, cancelAt, k).None?)
    requires StopAt(source, cancelAt, n).Some?
    ensures i > 0 ==>
      (if BOM <= DataOf(source[0]) then BOM else []) + BodyFrom(source, cancelAt, 0)
      == DeliveredBytes(source, i) + BodyFrom(source, cancelAt, i)
    ensures BodyFrom(source, cancelAt, n) == []
  {
    if i > 0 {
      assert StopAt(source, cancelAt, i - 1).None? && StopAt(source, cancelAt, 0).None?;
    }
    if i == 1 {
      var first := DataOf(source[0]);
      assert BOM <= first ==> BOM + first[3..] == first;
      assert DeliveredBytes(source, 1) == first;
      var mark := if BOM <= first then BOM else [];
      Associate(mark, Chunk(source, 0), BodyFrom(source, cancelAt, 1));
    } else if i > 1 {
      BodyDelivered(source, cancelAt, n, i - 1);
      Associate(DeliveredBytes(source, i - 1), DataOf(source[i - 1]), BodyFrom(source, cancelAt, i));
    }
  }

  // ---- the preflight does not depend on how the file is cut into reads ----

  /** All bytes delivered, with nothing removed. */
  function RawFrom(source: seq<ReadResult>, cancelAt: nat, i: nat): seq<byte>
    decreases |source| - i
  {
    if StopAt(source, cancelAt, i).Some? then [] else source[i].data + RawFrom(source, cancelAt, i + 1)
  }

  /** No byte order mark is cut by the end of the first read. */
  predicate BomIsWhole(source: seq<ReadResult>, cancelAt: nat) {
    StopAt(source, cancelAt, 0).Some? || |source[0].data| >= 3 || !(BOM <= RawFrom(source, cancelAt, 0))
  }

  lemma {:induction false} RawIsBodyLater(source: seq<ReadResult>, cancelAt: nat, i: nat)
    requires i > 0
    ensures BodyFrom(source, cancelAt, i) == RawFrom(source, cancelAt, i)
    decreases |source| - i
  {
    if StopAt(source, cancelAt, i).None? {
      RawIsBodyLater(source, cancelAt, i + 1);
    }
  }

  lemma StripFirst(first: seq<byte>, rest: seq<byte>)
    ensures |first| >= 3 || !(BOM <= first + rest) ==> StripBom(first) + rest == StripBom(first + rest)
    ensures |first| < 3 ==> StripBom(first) + rest == first + rest
  {
  }

  /** The body is the file minus its byte order mark, unless the mark is cut by the first read:
      then, and only then, the mark stays in the body. */
  lemma BodyIsStrippedFile(source: seq<ReadResult>, cancelAt: nat)
    ensures BodyFrom(source, cancelAt, 0) == StripBom(RawFrom(source, cancelAt, 0)) <==> BomIsWhole(source, cancelAt)
    ensures !BomIsWhole(source, cancelAt) ==> BodyFrom(source, cancelAt, 0) == RawFrom(source, cancelAt, 0)
  {
    if StopAt(source, cancelAt, 0).None? {
      RawIsBodyLater(source, cancelAt, 1);
      StripFirst(source[0].data, RawFrom(source, cancelAt, 1));
    }
  }

  /** Two ways of reading the same bytes to the end give the same answer. */
  lemma ChunkingDoesNotMatter(a: seq<ReadResult>, b: seq<ReadResult>, cancelA: nat, cancelB: nat)
    requires StopFrom(a, cancelA, 0) == StopFrom(b, cancelB, 0)
    requires RawFrom(a, cancelA, 0) == RawFrom(b, cancelB, 0)
    requires BomIsWhole(a, cancelA) && BomIsWhole(b, cancelB)
    ensures Verdict(BodyFrom(a, cancelA, 0), StopFrom(a, cancelA, 0)) ==
      Verdict(BodyFrom(b, cancelB, 0), StopFrom(b, cancelB, 0))
  {
    BodyIsStrippedFile(a, cancelA);
    BodyIsStrippedFile(b, cancelB);
  }

  lemma BomScans(rest: seq<byte>)
    ensures FromUtf8(BOM + rest) == FromUtf8(rest).Shift(3)
    ensures Newlines(BOM + rest) == Newlines(rest)
  {
    assert HeadOf(BOM + rest) == Char(3);
    assert (BOM + rest)[3..] == rest;
  }

  /** What a cut mark changes: acceptance never, a reported offset by three bytes, and the line
      count only when the file holds nothing but the mark. */
  lemma CutBomEffect(file: seq<byte>)
    requires BOM <= file
    ensures WellFormed(file) <==> WellFormed(StripBom(file))
    ensures !WellFormed(file) ==> FromUtf8(file).validUpTo == FromUtf8(StripBom(file)).validUpTo + 3
    ensures LineCount(file) == LineCount(StripBom(file)) + if file == BOM then 1 else 0
  {
    BomScans(file[3..]);
    assert file == BOM + file[3..];
  }
}
