/** The rolling log: rotation of four generations, and the thread that writes batches of lines. */
module RollingLog {
  import opened Prelude
  import opened Utf8

  const LOG_FILE_COUNT: nat := 4
  const LOG_BATCH_BYTES: nat := 64 * 1024

  /** A log file; `ours` marks a file that the writer itself started. */
  datatype LogFile = LogFile(content: seq<byte>, ours: bool)

  function Content(files: map<nat, LogFile>, generation: nat): seq<byte> {
    if generation in files then files[generation].content else []
  }

  /** All generations, oldest first. */
  function Archive(files: map<nat, LogFile>): seq<byte> {
    Content(files, 3) + Content(files, 2) + Content(files, 1) + Content(files, 0)
  }

  /** No file that the writer started is larger than the limit. */
  ghost predicate OursFit(files: map<nat, LogFile>, limit: nat) {
    forall g :: g in files && files[g].ours ==> |files[g].content| <= limit
  }

  /** A generation that exists cannot be moved away. */
  ghost predicate Blocked(files: map<nat, LogFile>, locked: set<nat>) {
    exists g :: 0 <= g < LOG_FILE_COUNT && g in files && g in locked
  }

  /** A buffer that does not fit behind what the current file holds. */
  predicate NeedsNewFile(length: nat, size: nat, limit: nat) {
    length > 0 && length + size > limit
  }

  /** The log directory. Generation 0 is the current file. Another program may hold files open; such
      `locked` files can neither be renamed nor removed. If the directory is `reliable`, no other
      operation fails. */
  class LogDirectory {
    const reliable: bool
    var files: map<nat, LogFile>
    var locked: set<nat>

    constructor (files: map<nat, LogFile>, locked: set<nat>, reliable: bool)
      ensures this.files == files && this.locked == locked && this.reliable == reliable
    {
      this.files, this.locked, this.reliable := files, locked, reliable;
    }

    method Unlock()
      modifies this`locked
      ensures locked == {}
    {
      locked := {};
    }

    method Remove(generation: nat) returns (ok: bool)
      modifies this`files
      ensures files == if ok then old(files) - {generation} else old(files)
      ensures reliable ==> (ok <==> generation !in locked)
    {
      ok := *;
      ok := (ok || reliable) && generation !in locked;
      if ok {
        files := files - {generation};
      }
    }

    method Rename(source: nat, target: nat) returns (ok: bool)
      requires source in files && target !in files && source != target
      modifies this`files
      ensures files == if ok then (old(files) - {source})[target := old(files)[source]] else old(files)
      ensures reliable ==> (ok <==> source !in locked)
    {
      ok := *;
      ok := (ok || reliable) && source !in locked;
      if ok {
        files := (files - {source})[target := files[source]];
      }
    }

    /** Opens the current file for writing and empties it. */
    method CreateTruncated() returns (ok: bool)
      modifies this`files
      ensures files == if ok then old(files)[0 := LogFile([], true)] else old(files)
      ensures reliable ==> ok
    {
      ok := *;
      ok := ok || reliable;
      if ok {
        files := files[0 := LogFile([], true)];
      }
    }

    /** Appends to the current file; the system may take only a part of the data. */
    method Append(data: seq<byte>) returns (written: Option<nat>)
      requires 0 in files
      modifies this`files
      ensures written.Some? ==> written.value <= |data|
      ensures files == if written.Some? then
          old(files)[0 := old(files)[0].(content := old(files)[0].content + data[..written.value])] else old(files)
      ensures reliable ==> written.Some? && (data != [] ==> written.value > 0)
    {
      var failed: bool := *;
      var count: nat :| count <= |data|;
      if reliable && count == 0 {
        count := |data|;
      }
      if failed && !reliable {
        return None;
      }
      files := files[0 := files[0].(content := files[0].content + data[..count])];
      return Some(count);
    }
  }

  class RollingLogWriter {
    const directory: LogDirectory
    const limit: nat
    var isOpen: bool
    var length: nat
    /** The archive as it was found, and every byte accepted since. */
    ghost var history: seq<byte>

    ghost predicate Valid()
      reads this, directory
    {
      && limit >= 1
      && (isOpen ==> 0 in directory.files && length <= |directory.files[0].content|)
      && (isOpen && directory.files[0].ours ==> length == |directory.files[0].content|)
      && OursFit(directory.files, limit)
      && IsSuffix(Archive(directory.files), history)
    }

    /** `measured` is false if the size of the file cannot be read; it then counts as empty. */
    constructor Open(directory: LogDirectory, limit: nat, measured: bool)
      requires 0 in directory.files && forall g :: g in directory.files ==> !directory.files[g].ours
      ensures Valid() && isOpen && this.directory == directory && this.limit == Max(limit, 1)
      ensures length == if measured then |directory.files[0].content| else 0
      ensures history == Archive(directory.files)
    {
      this.directory, this.limit := directory, Max(limit, 1);
      isOpen, length := true, if measured then |directory.files[0].content| else 0;
      history := Archive(directory.files);
    }

    /** Moves every generation up by one, dropping the oldest, and starts an empty file. After a
        failure no file is open, and nothing but the oldest bytes is lost. */
    method Rotate() returns (ok: bool)
      requires Valid()
      modifies this`isOpen, this`length, directory`files
      ensures Valid() && isOpen == ok
      ensures directory.reliable ==> (ok <==> !Blocked(old(directory.files), directory.locked))
      ensures ok ==> length == 0 && Rotated(old(directory.files), directory.files)
      ensures !ok ==> length == old(length)
    {
      hide Archive, IsSuffix, Shifting;
      ghost var before := directory.files;
      isOpen := false;
      ShiftStart(before);
      if LOG_FILE_COUNT - 1 in directory.files {
        ok := directory.Remove(LOG_FILE_COUNT - 1);
        if !ok {
          return;
        }
      }
      var generation := LOG_FILE_COUNT - 2;
      while generation >= 1
        invariant 0 <= generation <= LOG_FILE_COUNT - 2
        invariant Shifting(before, directory.files, generation) && !isOpen && length == old(length)
        invariant directory.reliable ==> forall g :: generation < g < LOG_FILE_COUNT && g in before ==>
          g !in directory.locked
      {
        ShiftStep(before, directory.files, generation);
        if generation in directory.files {
          ok := directory.Rename(generation, generation + 1);
          if !ok {
            ShiftIsSuffix(before, directory.files, generation, limit, history);
            return;
          }
        }
        generation := generation - 1;
      }
      ShiftStep(before, directory.files, 0);
      if 0 in directory.files {
        ok := directory.Rename(0, 1);
        if !ok {
          ShiftIsSuffix(before, directory.files, 0, limit, history);
          return;
        }
      }
      ShiftIsSuffix(before, directory.files, -1, limit, history);
      ShiftEnds(before, directory.files, limit, history);
      ok := directory.CreateTruncated();
      isOpen := ok;
      if ok {
        length := 0;
      }
    }

    /** Takes at most what still fits; a buffer that does not fit behind earlier data starts a file.
        A failed rotation leaves the writer closed. It then refuses whatever would fit, even when the
        files can be moved again, and a buffer that does not fit opens it with a rotation that succeeds. */
    method Write(buffer: seq<byte>) returns (written: Option<nat>)
      requires Valid()
      modifies this`isOpen, this`length, this`history, directory`files
      ensures Valid() && (written.Some? ==> isOpen)
      ensures directory.reliable ==>
        && (isOpen <==>
              if NeedsNewFile(old(length), |buffer|, limit) then !Blocked(old(directory.files), directory.locked)
              else old(isOpen))
        && (written.Some? <==> isOpen)
        && (written.Some? && buffer != [] ==> written.value > 0)
      ensures written.None? ==> history == old(history)
      ensures !isOpen ==> length == old(length)
      ensures !NeedsNewFile(old(length), |buffer|, limit) ==>
        isOpen == old(isOpen) && (written.None? ==> length == old(length) && directory.files == old(directory.files))
      ensures NeedsNewFile(old(length), |buffer|, limit) && isOpen && written.None? ==>
        length == 0 && Rotated(old(directory.files), directory.files)
      ensures written.Some? ==>
        && written.value <= |buffer| && history == old(history) + buffer[..written.value]
        && length == (if NeedsNewFile(old(length), |buffer|, limit) then 0 else old(length)) + written.value
        && InOneFile(old(directory.files), directory.files, NeedsNewFile(old(length), |buffer|, limit),
                     buffer[..written.value])
    {
      hide Archive, IsSuffix, Rotated, Blocked;
      ghost var before := directory.files;
      if length > 0 && length + |buffer| > limit {
        var ok := Rotate();
        if !ok {
          return None;
        }
        RotatedStart(before, directory.files);
      }
      if !isOpen {
        return None;
      }
      ghost var middle := directory.files;
      var allowed := Min(limit - length, |buffer|);
      written := directory.Append(buffer[..allowed]);
      if written.Some? {
        assert buffer[..allowed][..written.value] == buffer[..written.value];
        AppendGrows(middle, history, buffer[..written.value]);
        AppendAfterRotate(before, middle, directory.files, buffer[..written.value]);
        length := length + written.value;
        history := history + buffer[..written.value];
      }
    }

    /** Writes a batch piece by piece until it is done or nothing moves any more. */
    method WriteBatch(batch: seq<byte>) returns (accepted: nat)
      requires Valid()
      modifies this`isOpen, this`length, this`history, directory`files
      ensures Valid() && accepted <= |batch| && history == old(history) + batch[..accepted]
      ensures directory.reliable && directory.locked == {} ==>
        if old(isOpen) || (batch != [] && NeedsNewFile(old(length), |batch|, limit)) then
          accepted == |batch| && isOpen
        else accepted == 0
      ensures 0 < accepted && |batch| <= limit ==>
        InOneFile(old(directory.files), directory.files, NeedsNewFile(old(length), |batch|, limit), batch[..accepted])
    {
      hide Archive, IsSuffix, Valid, InOneFile;
      accepted := 0;
      ghost var before, rotates := directory.files, NeedsNewFile(length, |batch|, limit);
      assert batch[..0] == [] && history + [] == history;
      while accepted < |batch|
        invariant Valid() && accepted <= |batch| && history == old(history) + batch[..accepted]
        invariant accepted == 0 ==> isOpen == old(isOpen)
        invariant 0 < accepted ==> old(isOpen) || rotates
        invariant directory.reliable && directory.locked == {} && 0 < accepted ==> isOpen
        invariant 0 < accepted && |batch| <= limit ==>
          length + (|batch| - accepted) <= limit && InOneFile(before, directory.files, rotates, batch[..accepted])
        invariant accepted == 0 ==> directory.files == before && length == old(length)
        decreases |batch| - accepted
      {
        ghost var middle, start, done := directory.files, length, accepted;
        var written := Write(batch[accepted..]);
        if written.None? {
          return;
        }
        accepted := accepted + written.value;
        assert batch[done..][..written.value] == batch[done..accepted];
        assert batch[..done] + batch[done..accepted] == batch[..accepted];
        Associate(old(history), batch[..done], batch[done..accepted]);
        if 0 < done && |batch| <= limit {
          InOneFileGrows(before, middle, directory.files, rotates, batch[..done], batch[done..accepted]);
        } else if done == 0 {
          assert batch[0..] == batch && batch[0..accepted] == batch[..accepted];
        }
        if written.value == 0 {
          return;
        }
      }
      assert batch[..|batch|] == batch;
    }
  }

  /** A run that loses lines which would fit: the current file is held open when it has to be rotated,
      and the writer stays closed after the file was let go, until a buffer does not fit. */
  method ClosedWriter(writer: RollingLogWriter, small: seq<byte>, large: seq<byte>)
    returns (first: Option<nat>, held: Option<nat>, free: Option<nat>, last: Option<nat>)
    requires writer.Valid() && writer.isOpen && writer.directory.reliable && 0 in writer.directory.locked
    requires small != [] && !NeedsNewFile(writer.length, |small|, writer.limit)
    requires NeedsNewFile(writer.length, |large|, writer.limit)
    modifies writer, writer.directory
    ensures writer.Valid() && first.None? && held.None? && free.None?
    ensures last.Some? && 0 < last.value <= |large| && writer.history == old(writer.history) + large[..last.value]
  {
    first := writer.Write(large);
    held := writer.Write(small);
    writer.directory.Unlock();
    free := writer.Write(small);
    last := writer.Write(large);
  }

  /** Generations above `hole` have moved up by one, `hole + 1` is free and the rest is as before. */
  ghost predicate Shifting(before: map<nat, LogFile>, after: map<nat, LogFile>, hole: int) {
    && -1 <= hole <= 2 && hole + 1 !in after
    && (forall g: nat :: g <= hole || g > 3 ==> SameFile(before, g, after, g))
    && (forall g: nat :: hole + 1 < g <= 3 ==> MovedUp(before, after, g))
  }

  ghost predicate MovedUp(before: map<nat, LogFile>, after: map<nat, LogFile>, g: nat)
    requires g > 0
  {
    SameFile(before, g - 1, after, g)
  }

  ghost predicate SameFile(before: map<nat, LogFile>, g: nat, after: map<nat, LogFile>, h: nat) {
    (h in after <==> g in before) && (h in after ==> after[h] == before[g])
  }

  /** After a rotation: every generation one higher, and an empty current file. */
  ghost predicate Rotated(before: map<nat, LogFile>, after: map<nat, LogFile>) {
    && 0 in after && after[0] == LogFile([], true)
    && (forall g: nat :: 1 <= g <= 3 ==> MovedUp(before, after, g))
    && (forall g: nat :: g > 3 ==> SameFile(before, g, after, g))
  }

  /** All of `data` went behind the old end of the current file, or after a rotation into a new one. */
  ghost predicate InOneFile(before: map<nat, LogFile>, after: map<nat, LogFile>, rotates: bool, data: seq<byte>) {
    && 0 in after
    && if rotates then Rotated(before, after[0 := LogFile([], true)]) && after[0] == LogFile(data, true)
       else 0 in before && after == before[0 := before[0].(content := before[0].content + data)]
  }

  /** An empty file takes whatever comes, at least in part; another one only what still fits. */
  lemma NewFileIff(length: nat, size: nat, limit: nat)
    ensures NeedsNewFile(length, size, limit) <==> length != 0 && size > limit - length
  {
  }

  /** After a rotation every generation has the bytes of the one before it, and the current file is empty. */
  lemma RotatedContents(before: map<nat, LogFile>, after: map<nat, LogFile>)
    requires Rotated(before, after)
    ensures 0 in after && after[0].content == []
    ensures forall g :: 0 <= g <= 2 ==>
      (g in before <==> g + 1 in after) && (g in before ==> after[g + 1].content == before[g].content)
  {
    assert MovedUp(before, after, 1) && MovedUp(before, after, 2) && MovedUp(before, after, 3);
  }

  /** Data that went into one file stands at the end of the current one, behind its old content unless it is new;
      no older file lost a byte that rotation would not drop. */
  lemma OneFileContents(before: map<nat, LogFile>, after: map<nat, LogFile>, rotates: bool, data: seq<byte>)
    requires InOneFile(before, after, rotates, data)
    ensures 0 in after && after[0].content == (if rotates || 0 !in before then [] else before[0].content) + data
    ensures forall g :: 1 <= g <= 3 && (if rotates then g - 1 in before else g in before) ==>
      g in after && after[g].content == if rotates then before[g - 1].content else before[g].content
  {
    if rotates {
      RotatedContents(before, after[0 := LogFile([], true)]);
      assert [] + data == data;
    }
  }

  lemma ShiftStart(before: map<nat, LogFile>)
    ensures Shifting(before, before - {3}, 2)
    ensures 3 !in before ==> before - {3} == before
  {
  }

  lemma ShiftStep(before: map<nat, LogFile>, after: map<nat, LogFile>, g: nat)
    requires g <= 2 && Shifting(before, after, g)
    ensures g + 1 !in after && (g in after <==> g in before)
    ensures g in after ==> Shifting(before, (after - {g})[g + 1 := after[g]], g - 1)
    ensures g !in after ==> Shifting(before, after, g - 1)
  {
    assert SameFile(before, g, after, g);
    var next := if g in after then (after - {g})[g + 1 := after[g]] else after;
    forall h: nat | h <= g - 1 || h > 3
      ensures SameFile(before, h, next, h)
    {
      assert SameFile(before, h, after, h);
    }
    forall h: nat | g < h <= 3
      ensures MovedUp(before, next, h)
    {
      assert h > g + 1 ==> MovedUp(before, after, h);
    }
  }

  lemma ShiftIsSuffix(before: map<nat, LogFile>, after: map<nat, LogFile>, hole: int, limit: nat, history: seq<byte>)
    requires Shifting(before, after, hole) && IsSuffix(Archive(before), history)
    ensures IsSuffix(Archive(after), history)
    ensures OursFit(before, limit) ==> OursFit(after, limit)
  {
    ShiftedArchive(before, after, hole);
    DropFront(Content(before, 3), Content(before, 2), Content(before, 1), Content(before, 0), history);
    if OursFit(before, limit) {
      hide Archive, IsSuffix, Content;
      ShiftFits(before, after, hole, limit);
    }
  }

  lemma ShiftFits(before: map<nat, LogFile>, after: map<nat, LogFile>, hole: int, limit: nat)
    requires Shifting(before, after, hole) && OursFit(before, limit)
    ensures OursFit(after, limit)
  {
    forall g | g in after && after[g].ours
      ensures |after[g].content| <= limit
    {
      if g <= hole || g > 3 {
        assert SameFile(before, g, after, g);
      } else {
        assert MovedUp(before, after, g);
      }
    }
  }

  lemma ShiftedArchive(before: map<nat, LogFile>, after: map<nat, LogFile>, hole: int)
    requires Shifting(before, after, hole)
    ensures Archive(after) == Content(before, 2) + Content(before, 1) + Content(before, 0)
  {
    assert Content(after, (hole + 1) as nat) == [];
    forall g: nat | g <= hole
      ensures Content(after, g) == Content(before, g)
    {
      assert SameFile(before, g, after, g);
    }
    forall g: nat | hole + 1 < g <= 3
      ensures Content(after, g) == Content(before, g - 1)
    {
      assert MovedUp(before, after, g);
    }
    hide Shifting;
    if hole == 2 {
    } else if hole == 1 {
    } else if hole == 0 {
    } else {
    }
  }

  lemma DropFront(a: seq<byte>, b: seq<byte>, c: seq<byte>, d: seq<byte>, all: seq<byte>)
    requires IsSuffix(a + b + c + d, all)
    ensures IsSuffix(b + c + d, all)
  {
    Associate(a, b, c);
    Associate(a, b + c, d);
    assert all[|all| - |b + c + d|..] == all[|all| - |a + (b + c + d)|..][|a|..];
  }

  lemma ShiftEnds(before: map<nat, LogFile>, after: map<nat, LogFile>, limit: nat, history: seq<byte>)
    requires Shifting(before, after, -1) && IsSuffix(Archive(after), history)
    ensures Rotated(before, after[0 := LogFile([], true)])
    ensures IsSuffix(Archive(after[0 := LogFile([], true)]), history)
  {
    var next := after[0 := LogFile([], true)];
    assert Archive(next) == Archive(after);
    forall g: nat | 1 <= g <= 3
      ensures MovedUp(before, next, g)
    {
      assert MovedUp(before, after, g);
    }
    forall g: nat | g > 3
      ensures SameFile(before, g, next, g)
    {
      assert SameFile(before, g, after, g);
    }
  }

  lemma RotatedStart(before: map<nat, LogFile>, after: map<nat, LogFile>)
    requires Rotated(before, after)
    ensures 0 in after && after[0] == LogFile([], true)
  {
  }

  lemma AppendGrows(files: map<nat, LogFile>, history: seq<byte>, data: seq<byte>)
    requires 0 in files && IsSuffix(Archive(files), history)
    ensures IsSuffix(Archive(files[0 := files[0].(content := files[0].content + data)]), history + data)
  {
    var next := files[0 := files[0].(content := files[0].content + data)];
    assert Archive(next) == Archive(files) + data;
    assert (history + data)[|history| - |Archive(files)|..] == history[|history| - |Archive(files)|..] + data;
  }

  lemma AppendAfterRotate(before: map<nat, LogFile>, middle: map<nat, LogFile>, after: map<nat, LogFile>,
                          data: seq<byte>)
    requires 0 in middle && after == middle[0 := middle[0].(content := middle[0].content + data)]
    ensures middle == before ==> InOneFile(before, after, false, data)
    ensures Rotated(before, middle) ==> InOneFile(before, after, true, data)
  {
    if Rotated(before, middle) {
      assert after[0 := LogFile([], true)] == middle;
      assert [] + data == data;
    }
  }

  lemma InOneFileGrows(before: map<nat, LogFile>, middle: map<nat, LogFile>, after: map<nat, LogFile>, rotates: bool,
                       a: seq<byte>, b: seq<byte>)
    requires InOneFile(before, middle, rotates, a) && InOneFile(middle, after, false, b)
    ensures InOneFile(before, after, rotates, a + b)
  {
    if rotates {
      assert after[0 := LogFile([], true)] == middle[0 := LogFile([], true)];
    } else {
      Associate(before[0].content, a, b);
    }
  }

  // ---- the log thread ----

  /** The bytes of the lines in front of the first empty one, which is the signal to stop. */
  function BeforeStop(lines: seq<seq<byte>>): seq<byte> {
    if lines == [] || lines[0] == [] then [] else lines[0] + BeforeStop(lines[1..])
  }

  function AfterStop(lines: seq<seq<byte>>): seq<seq<byte>> {
    if lines == [] then [] else if lines[0] == [] then lines[1..] else AfterStop(lines[1..])
  }

  /** The lines in front of the first empty one are written, and those behind it are left. */
  lemma {:induction false} StopSplits(lines: seq<seq<byte>>) returns (n: nat)
    ensures n <= |lines| && (forall i :: 0 <= i < n ==> lines[i] != []) && (n < |lines| ==> lines[n] == [])
    ensures BeforeStop(lines) == Flatten(lines[..n])
    ensures AfterStop(lines) == if n < |lines| then lines[n + 1..] else []
  {
    if lines == [] || lines[0] == [] {
      n := 0;
    } else {
      var k := StopSplits(lines[1..]);
      n := k + 1;
      assert lines[..n][1..] == lines[1..][..k];
    }
  }

  /** Collects lines until the batch is large enough, nothing more has arrived or the thread must stop. */
  method GatherBatch(lines: seq<seq<byte>>)
    returns (batch: seq<byte>, left: seq<seq<byte>>, stopping: bool, ghost count: nat)
    requires lines != []
    ensures count <= |lines| && batch == Flatten(lines[..count])
    ensures count > 0 ==> |Flatten(lines[..count - 1])| < 65_536
    ensures if stopping then batch == BeforeStop(lines) && left == AfterStop(lines)
            else
              && batch != [] && batch + BeforeStop(left) == BeforeStop(lines)
              && AfterStop(left) == AfterStop(lines) && |left| < |lines|
  {
    batch, left, stopping := lines[0], lines[1..], lines[0] == [];
    count := if stopping then 0 else 1;
    FlattenFirst(lines);
    if stopping {
      return;
    }
    while |batch| < LOG_BATCH_BYTES
      invariant !stopping && batch != [] && |left| < |lines|
      invariant 1 <= count <= |lines| && left == lines[count..] && batch == Flatten(lines[..count])
      invariant |Flatten(lines[..count - 1])| < 65_536
      invariant batch + BeforeStop(left) == BeforeStop(lines) && AfterStop(left) == AfterStop(lines)
      decreases |left|
    {
      var arrived: bool := *;
      if left == [] || !arrived {
        break;
      }
      var next := left[0];
      if next == [] {
        left, stopping := left[1..], true;
        return;
      }
      Associate(batch, next, BeforeStop(left[1..]));
      FlattenSnoc(lines[..count], next);
      assert lines[..count + 1] == lines[..count] + [next];
      batch, left, count := batch + next, left[1..], count + 1;
    }
  }

  lemma FlattenFirst(lines: seq<seq<byte>>)
    requires lines != []
    ensures Flatten(lines[..0]) == [] && Flatten(lines[..1]) == lines[0]
  {
    assert lines[..1] == [lines[0]];
    FlattenSnoc([], lines[0]);
    assert [] + [lines[0]] == [lines[0]];
  }

  /** The body of the log thread. `incoming` are the lines that will arrive; whether a line has
      arrived already when the thread looks is open. */
  method RunLogThread(writer: RollingLogWriter, incoming: seq<seq<byte>>) returns (left: seq<seq<byte>>)
    requires writer.Valid()
    modifies writer, writer.directory`files
    ensures writer.Valid() && left == AfterStop(incoming)
    ensures writer.directory.reliable && writer.directory.locked == {} && old(writer.isOpen) ==>
      writer.history == old(writer.history) + BeforeStop(incoming)
  {
    hide RollingLogWriter.Valid, InOneFile;
    left := incoming;
    var stopping := false;
    ghost var start, done := writer.history, [];
    assert start + [] == start;
    while !stopping && left != []
      invariant writer.Valid()
      invariant writer.directory.reliable && writer.directory.locked == {} && old(writer.isOpen) ==>
        writer.isOpen && writer.history == start + done
      invariant done + (if stopping then [] else BeforeStop(left)) == BeforeStop(incoming)
      invariant if stopping then left == AfterStop(incoming) else AfterStop(left) == AfterStop(incoming)
      decreases !stopping, |left|
    {
      var batch;
      ghost var before := left;
      ghost var gathered;
      batch, left, stopping, gathered := GatherBatch(left);
      var accepted := writer.WriteBatch(batch);
      assert accepted == |batch| ==> batch[..accepted] == batch;
      Associate(start, done, batch);
      Associate(done, batch, BeforeStop(left));
      done := done + batch;
    }
  }
}
