/** Progress events of a file translation: coalescing drains, and what the dialog makes of them. */
module ProgressDrain {
  import opened Prelude

  datatype Result = Completed | Cancelled | Failed(message: string)

  datatype Event =
    | TotalFiles(count: int)
    | TotalLines(count: int)
    | FileIndex(index: int)
    | FileName(name: string)
    | FileLines(count: int)
    | FileProgress(value: int)
    | TotalProgress(value: int)
    | Finished(result: Result)

  predicate IsOrdinary(event: Event) {
    !event.FileProgress? && !event.TotalProgress? && !event.Finished?
  }

  /** The events that are passed on where they are. */
  function Kept(events: seq<Event>): (r: seq<Event>)
    ensures forall i :: 0 <= i < |r| ==> IsOrdinary(r[i])
  {
    if events == [] then [] else
      var last := events[|events| - 1];
      Kept(events[..|events| - 1]) + (if IsOrdinary(last) then [last] else [])
  }

  /** The value of the last `FileProgress`. */
  function FileValue(events: seq<Event>): Option<int> {
    if events == [] then None else
      var last := events[|events| - 1];
      if last.FileProgress? then Some(last.value) else FileValue(events[..|events| - 1])
  }

  function TotalValue(events: seq<Event>): Option<int> {
    if events == [] then None else
      var last := events[|events| - 1];
      if last.TotalProgress? then Some(last.value) else TotalValue(events[..|events| - 1])
  }

  function Latest(file: Option<int>, total: Option<int>): (r: seq<Event>)
    ensures forall i :: 0 <= i < |r| ==> r[i].FileProgress? || r[i].TotalProgress?
  {
    (if file.Some? then [FileProgress(file.value)] else []) + (if total.Some? then [TotalProgress(total.value)] else [])
  }

  predicate Unfinished(events: seq<Event>) {
    forall i :: 0 <= i < |events| ==> !events[i].Finished?
  }

  /** What a drain hands out for the events it took: `Finished` can only be the last of them. */
  function Coalesced(events: seq<Event>): seq<Event> {
    var n := |events|;
    if n > 0 && events[n - 1].Finished? then
      Kept(events[..n - 1]) + Latest(FileValue(events[..n - 1]), TotalValue(events[..n - 1])) + [events[n - 1]]
    else Kept(events) + Latest(FileValue(events), TotalValue(events))
  }

  /** The receiving end of the channel. `received` is the history of what was taken from it. */
  class FileTranslationTask {
    var queue: seq<Event>
    ghost var received: seq<Event>

    constructor ()
      ensures queue == [] && received == []
    {
      queue, received := [], [];
    }

    /** The worker may send at any time, also between two receives of one drain. */
    method TryRecv() returns (event: Option<Event>)
      modifies this
      ensures exists sent: seq<Event> ::
        if event.None? then old(queue) == sent == queue == []
        else old(queue) + sent == [event.value] + queue
      ensures received == if event.Some? then old(received) + [event.value] else old(received)
    {
      var sent: seq<Event> :| true;
      ghost var before := queue;
      queue := queue + sent;
      if queue == [] {
        assert before == [] && sent == [];
        return None;
      }
      event := Some(queue[0]);
      received := received + [queue[0]];
      assert before + sent == [event.value] + queue[1..];
      queue := queue[1..];
    }

    method DrainEventsBudgeted(budget: nat) returns (events: seq<Event>, ghost taken: seq<Event>)
      modifies this
      ensures received == old(received) + taken && |taken| <= Max(budget, 1)
      ensures taken != [] ==> Unfinished(taken[..|taken| - 1])
      ensures events == Coalesced(taken)
      ensures |taken| < Max(budget, 1) ==> queue == [] || (taken != [] && taken[|taken| - 1].Finished?)
    {
      events, taken := [], [];
      var file: Option<int>, total: Option<int> := None, None;
      var steps := Max(budget, 1);
      for i := 0 to steps
        invariant received == old(received) + taken && |taken| == i && Unfinished(taken)
        invariant events == Kept(taken) && file == FileValue(taken) && total == TotalValue(taken)
      {
        var received := TryRecv();
        if received.None? {
          break;
        }
        var event := received.value;
        ghost var before := taken;
        taken := taken + [event];
        assert taken[..|taken| - 1] == before;
        match event {
          case FileProgress(value) => file := Some(value);
          case TotalProgress(value) => total := Some(value);
          case Finished(_) =>
            events := events + Latest(file, total) + [event];
            return;
          case _ => events := events + [event];
        }
      }
      events := events + Latest(file, total);
    }
  }

  // ---- the state of the dialog ----

  datatype Progress = Progress(totalFiles: int, fileIndex: int, totalLines: int, currentLine: int, listSize: int,
                               terminal: bool)

  function After(state: Progress, event: Event): Progress {
    if state.terminal then state else
      match event
      case TotalFiles(count) => state.(totalFiles := count)
      case TotalLines(count) => state.(totalLines := count)
      case FileIndex(index) => state.(fileIndex := index)
      case FileLines(count) => state.(listSize := count)
      case FileProgress(_) => state
      case TotalProgress(value) => state.(currentLine := value)
      case Finished(_) => state.(terminal := true)
      case FileName(_) => state
  }

  function AfterAll(state: Progress, events: seq<Event>): Progress {
    if events == [] then state else After(AfterAll(state, events[..|events| - 1]), events[|events| - 1])
  }

  /** The labels and the bar of the dialog; a label is kept as the values it is formatted from. */
  datatype Label = Ratio(a: int, b: int) | File(name: string, index: int, files: int) | Message(text: string)

  datatype Screen = Screen(state: Progress, name: Label, bar: int, range: int, progress: Label, index: Label,
                           total: Label)

  function Shown(before: Screen, event: Event): Screen {
    var state := After(before.state, event);
    var screen := before.(state := state);
    match event
    case TotalLines(_) => screen.(total := Ratio(0, state.totalLines))
    case TotalFiles(_) => screen.(index := Ratio(0, state.totalFiles))
    case FileIndex(_) => screen.(index := Ratio(state.fileIndex, state.totalFiles))
    case FileName(name) => screen.(name := File(name, state.fileIndex, state.totalFiles), bar := 0)
    case FileLines(_) => screen.(range := state.listSize)
    case FileProgress(value) => screen.(bar := value, progress := Ratio(value, state.listSize))
    case TotalProgress(_) => screen.(total := Ratio(state.currentLine, state.totalLines))
    case Finished(result) =>
      match result
      case Completed => screen.(name := Message("done"), progress := Message("translated"))
      case Cancelled => screen.(name := Message("cancelled"), progress := Message("translation cancelled"))
      case Failed(_) => screen.(name := Message("error"))
  }

  function ShownAll(screen: Screen, events: seq<Event>): Screen {
    if events == [] then screen else Shown(ShownAll(screen, events[..|events| - 1]), events[|events| - 1])
  }

  class ProgressDialog {
    const task: FileTranslationTask
    var screen: Screen

    constructor (task: FileTranslationTask)
      ensures this.task == task
    {
      this.task := task;
      screen := Screen(Progress(0, 0, 0, 0, 0, false), Message(""), 0, 100, Message(""), Message(""), Message(""));
    }

    method HandleProgressEvent(event: Event)
      modifies this
      ensures screen == Shown(old(screen), event)
    {
      var state := Apply(screen.state, event);
      screen := screen.(state := state);
      match event {
        case TotalLines(_) => screen := screen.(total := Ratio(0, state.totalLines));
        case TotalFiles(_) => screen := screen.(index := Ratio(0, state.totalFiles));
        case FileIndex(_) => screen := screen.(index := Ratio(state.fileIndex, state.totalFiles));
        case FileName(name) => screen := screen.(name := File(name, state.fileIndex, state.totalFiles), bar := 0);
        case FileLines(_) => screen := screen.(range := state.listSize);
        case FileProgress(value) => screen := screen.(bar := value, progress := Ratio(value, state.listSize));
        case TotalProgress(_) => screen := screen.(total := Ratio(state.currentLine, state.totalLines));
        case Finished(Completed) => screen := screen.(name := Message("done"), progress := Message("translated"));
        case Finished(Cancelled) =>
          screen := screen.(name := Message("cancelled"), progress := Message("translation cancelled"));
        case Finished(Failed(_)) => screen := screen.(name := Message("error"));
      }
    }

    static method Apply(before: Progress, event: Event) returns (state: Progress)
      ensures state == After(before, event)
    {
      state := before;
      if state.terminal {
        return;
      }
      match event {
        case TotalFiles(count) => state := state.(totalFiles := count);
        case TotalLines(count) => state := state.(totalLines := count);
        case FileIndex(index) => state := state.(fileIndex := index);
        case FileLines(count) => state := state.(listSize := count);
        case FileProgress(_) =>
        case TotalProgress(value) => state := state.(currentLine := value);
        case Finished(_) => state := state.(terminal := true);
        case FileName(_) =>
      }
    }

    /** One timer tick: the state is the one that every single event would have led to. */
    method DrainProgressEvents() returns (ghost taken: seq<Event>)
      modifies this, task
      ensures task.received == old(task.received) + taken && |taken| <= 128
      ensures screen.state == AfterAll(old(screen.state), taken)
      ensures screen == ShownAll(old(screen), Coalesced(taken))
    {
      var events;
      events, taken := task.DrainEventsBudgeted(128);
      for i := 0 to |events|
        invariant task.received == old(task.received) + taken
        invariant screen == ShownAll(old(screen), events[..i])
      {
        HandleProgressEvent(events[i]);
        assert events[..i + 1][..i] == events[..i];
      }
      assert events[..|events|] == events;
      ShownState(old(screen), events);
      DrainKeepsState(old(screen.state), taken);
    }
  }

  lemma {:induction false} ShownState(screen: Screen, events: seq<Event>)
    ensures ShownAll(screen, events).state == AfterAll(screen.state, events)
  {
    if events != [] {
      ShownState(screen, events[..|events| - 1]);
    }
  }

  lemma {:induction false} ShownConcat(screen: Screen, a: seq<Event>, b: seq<Event>)
    ensures ShownAll(screen, a + b) == ShownAll(ShownAll(screen, a), b)
  {
    hide Shown;
    if b == [] {
      assert a + b == a;
    } else {
      assert (a + b)[..|a + b| - 1] == a + b[..|b| - 1];
      ShownConcat(screen, a, b[..|b| - 1]);
    }
  }

  // ---- what coalescing may and may not change ----

  /** A file name arrived after the last `FileProgress`. */
  predicate NameFollows(events: seq<Event>) {
    events != [] &&
    var last := events[|events| - 1];
    !last.FileProgress? && (last.FileName? || NameFollows(events[..|events| - 1]))
  }

  /** A line total arrived after the last `TotalProgress`. */
  predicate LinesFollow(events: seq<Event>) {
    events != [] &&
    var last := events[|events| - 1];
    !last.TotalProgress? && (last.TotalLines? || LinesFollow(events[..|events| - 1]))
  }

  /** The list size when the last `FileProgress` arrived. */
  function SizeThen(state: Progress, events: seq<Event>): int {
    if events == [] then state.listSize else
      var before := events[..|events| - 1];
      if events[|events| - 1].FileProgress? then AfterAll(state, before).listSize else SizeThen(state, before)
  }

  /** The line count that a `TotalProgress` leaves behind; a finished dialog keeps its own. */
  function LineCount(state: Progress, value: int): int {
    if state.terminal then state.currentLine else value
  }

  /** The screen with the effects of all progress values that were held back. */
  function Patched(kept: Screen, start: Progress, events: seq<Event>): Screen {
    var withFile := match FileValue(events)
      case None => kept
      case Some(value) =>
        kept.(bar := if NameFollows(events) then 0 else value, progress := Ratio(value, SizeThen(start, events)));
    match TotalValue(events)
    case None => withFile
    case Some(value) =>
      withFile.(state := withFile.state.(currentLine := LineCount(kept.state, value)),
                total := Ratio(if LinesFollow(events) then 0 else LineCount(kept.state, value),
                               withFile.state.totalLines))
  }

  lemma {:induction false} KeptPatched(screen: Screen, events: seq<Event>)
    requires Unfinished(events)
    ensures ShownAll(screen, events) == Patched(ShownAll(screen, Kept(events)), screen.state, events)
    decreases |events|
  {
    if events == [] {
      assert Kept(events) == [];
    } else {
      hide *;
      KeptPatched(screen, events[..|events| - 1]);
      PatchedSnoc(screen, events);
    }
  }

  lemma PatchedSnoc(screen: Screen, events: seq<Event>)
    requires events != [] && !events[|events| - 1].Finished?
    requires var before := events[..|events| - 1];
      ShownAll(screen, before) == Patched(ShownAll(screen, Kept(before)), screen.state, before)
    ensures ShownAll(screen, events) == Patched(ShownAll(screen, Kept(events)), screen.state, events)
  {
    hide *;
    var before := events[..|events| - 1];
    KeptStep(screen, events);
    ShownStep(screen, events);
    ShownState(screen, before);
    PatchStep(ShownAll(screen, Kept(before)), screen.state, events);
  }

  lemma {:induction false} TerminalWhenShown(screen: Screen, events: seq<Event>)
    requires Unfinished(events)
    ensures ShownAll(screen, events).state.terminal == screen.state.terminal
    ensures screen.state.terminal ==> ShownAll(screen, events).state == screen.state
    decreases |events|
  {
    if events != [] {
      TerminalWhenShown(screen, events[..|events| - 1]);
    }
  }

  /** A progress event changes what is held back, any other event the screen under it. */
  lemma PatchStep(kept: Screen, start: Progress, events: seq<Event>)
    requires events != [] && !events[|events| - 1].Finished?
    requires AfterAll(start, events[..|events| - 1]) == Patched(kept, start, events[..|events| - 1]).state
    ensures var last := events[|events| - 1];
      Patched(if IsOrdinary(last) then Shown(kept, last) else kept, start, events)
      == Shown(Patched(kept, start, events[..|events| - 1]), last)
  {
    hide AfterAll;
  }

  lemma ShownStep(screen: Screen, events: seq<Event>)
    requires events != []
    ensures ShownAll(screen, events) == Shown(ShownAll(screen, events[..|events| - 1]), events[|events| - 1])
  {
  }

  lemma KeptStep(screen: Screen, events: seq<Event>)
    requires events != []
    ensures var last, before := events[|events| - 1], Kept(events[..|events| - 1]);
            ShownAll(screen, Kept(events))
            == if IsOrdinary(last) then Shown(ShownAll(screen, before), last) else ShownAll(screen, before)
  {
    hide Shown;
    var last, before := events[|events| - 1], Kept(events[..|events| - 1]);
    if IsOrdinary(last) {
      assert (before + [last])[..|before|] == before;
    } else {
      assert before + [] == before;
    }
  }

  lemma ShownLatest(screen: Screen, file: Option<int>, total: Option<int>)
    ensures
      var withFile := match file
        case None => screen
        case Some(value) => screen.(bar := value, progress := Ratio(value, screen.state.listSize));
      ShownAll(screen, Latest(file, total)) == match total
        case None => withFile
        case Some(value) =>
          withFile.(state := screen.state.(currentLine := LineCount(screen.state, value)),
                    total := Ratio(LineCount(screen.state, value), screen.state.totalLines))
  {
    var f := if file.Some? then [FileProgress(file.value)] else [];
    var t := if total.Some? then [TotalProgress(total.value)] else [];
    ShownConcat(screen, f, t);
    if file.Some? {
      assert f[..0] == [];
    }
    if total.Some? {
      assert t[..0] == [];
    }
  }

  predicate BarIsStale(events: seq<Event>) {
    FileValue(events).Some? && FileValue(events).value != 0 && NameFollows(events)
  }

  predicate FileLabelIsStale(state: Progress, events: seq<Event>) {
    FileValue(events).Some? && SizeThen(state, events) != AfterAll(state, events).listSize
  }

  predicate TotalLabelIsStale(state: Progress, events: seq<Event>) {
    TotalValue(events).Some? && LineCount(state, TotalValue(events).value) != 0 && LinesFollow(events)
  }

  /** The events of a drain in front of the terminal one. */
  function Body(taken: seq<Event>): seq<Event> {
    if EndsFinished(taken) then taken[..|taken| - 1] else taken
  }

  /** The terminal event puts its own text over the label of the file. */
  predicate ReplacesFileLabel(taken: seq<Event>) {
    EndsFinished(taken) && !taken[|taken| - 1].result.Failed?
  }

  /** The exact price of coalescing, for every drain: the screen is the same unless a held-back progress
      value crossed the event that would have overwritten it, and nothing overwrote it later. */
  lemma CoalescingIsInvisibleIff(screen: Screen, taken: seq<Event>)
    requires taken != [] ==> Unfinished(taken[..|taken| - 1])
    ensures ShownAll(screen, Coalesced(taken)) == ShownAll(screen, taken)
      <==> && !BarIsStale(Body(taken))
           && (!FileLabelIsStale(screen.state, Body(taken)) || ReplacesFileLabel(taken))
           && !TotalLabelIsStale(screen.state, Body(taken))
  {
    hide After, ShownAll, AfterAll, Kept, Latest, FileValue, TotalValue, NameFollows, LinesFollow, SizeThen,
         FileLabelIsStale;
    var body := Body(taken);
    var a, b := ShownAll(screen, Kept(body) + Latest(FileValue(body), TotalValue(body))), ShownAll(screen, body);
    BodyDiffers(screen, body);
    if EndsFinished(taken) {
      var last := taken[|taken| - 1];
      ShownSnoc(screen, Kept(body) + Latest(FileValue(body), TotalValue(body)), last);
      ShownSnoc(screen, body, last);
      assert taken == body + [last];
    }
  }

  /** Coalescing changes at most the bar and the two progress labels, each exactly when it is stale. */
  lemma BodyDiffers(screen: Screen, events: seq<Event>)
    requires Unfinished(events)
    ensures var latest := Latest(FileValue(events), TotalValue(events));
      var a, b := ShownAll(screen, Kept(events) + latest), ShownAll(screen, events);
      && a == b.(bar := a.bar, progress := a.progress, total := a.total)
      && (a.bar == b.bar <==> !BarIsStale(events))
      && (a.progress == b.progress <==> !FileLabelIsStale(screen.state, events))
      && (a.total == b.total <==> !TotalLabelIsStale(screen.state, events))
  {
    hide Shown, After, ShownAll, AfterAll, Kept, Latest, FileValue, TotalValue, NameFollows, LinesFollow, SizeThen;
    KeptPatched(screen, events);
    TerminalWhenShown(screen, events);
    var kept := ShownAll(screen, Kept(events));
    ShownConcat(screen, Kept(events), Latest(FileValue(events), TotalValue(events)));
    ShownLatest(kept, FileValue(events), TotalValue(events));
    ShownState(screen, events);
  }

  lemma ShownSnoc(screen: Screen, events: seq<Event>, event: Event)
    ensures ShownAll(screen, events + [event]) == Shown(ShownAll(screen, events), event)
  {
    hide Shown;
    assert (events + [event])[..|events|] == events;
  }

  // ---- the events of a job ----

  /** What is reported while the first `done` lines of a file are written. */
  function LineReports(lines: nat, earlier: nat, done: nat): seq<Event> {
    if done == 0 then [] else
      LineReports(lines, earlier, done - 1)
      + (if done == 1 || done == lines || done % 256 == 0 then [FileProgress(done), TotalProgress(earlier + done)]
         else [])
  }

  datatype JobFile = JobFile(name: string, lines: nat)

  function TotalOf(files: seq<JobFile>): nat {
    if files == [] then 0 else TotalOf(files[..|files| - 1]) + files[|files| - 1].lines
  }

  function FileEvents(files: seq<JobFile>): seq<Event> {
    if files == [] then [] else
      var before, file := files[..|files| - 1], files[|files| - 1];
      FileEvents(before) + ([FileIndex(|files|), FileName(file.name), FileLines(file.lines)]
                            + LineReports(file.lines, TotalOf(before), file.lines))
  }

  /** Everything a job reports before its terminal event, if nothing stops it. */
  function JobEvents(files: seq<JobFile>): seq<Event> {
    [TotalFiles(|files|), TotalLines(TotalOf(files))] + FileEvents(files)
  }

  lemma {:induction false} ReportsHaveNoTotals(lines: nat, earlier: nat, done: nat)
    ensures forall i :: 0 <= i < |LineReports(lines, earlier, done)| ==>
      !LineReports(lines, earlier, done)[i].TotalLines?
  {
    if done > 0 {
      ReportsHaveNoTotals(lines, earlier, done - 1);
    }
  }

  lemma {:induction false} FilesHaveNoTotals(files: seq<JobFile>)
    ensures forall i :: 0 <= i < |FileEvents(files)| ==> !FileEvents(files)[i].TotalLines?
  {
    if files != [] {
      var before, file := files[..|files| - 1], files[|files| - 1];
      FilesHaveNoTotals(before);
      ReportsHaveNoTotals(file.lines, TotalOf(before), file.lines);
      hide LineReports, TotalOf;
    }
  }

  /** A line total that stands in front of all progress is never shown over. */
  lemma {:induction false} TotalsFirst(state: Progress, events: seq<Event>)
    requires forall i, j :: 0 <= i < j < |events| && events[i].TotalProgress? ==> !events[j].TotalLines?
    ensures !TotalLabelIsStale(state, events)
  {
    if events != [] && !events[|events| - 1].TotalProgress? {
      var before := events[..|events| - 1];
      TotalsFirst(state, before);
      if events[|events| - 1].TotalLines? {
        NoProgressYet(before);
      }
    }
  }

  lemma {:induction false} NoProgressYet(events: seq<Event>)
    requires forall i :: 0 <= i < |events| ==> !events[i].TotalProgress?
    ensures TotalValue(events) == None
  {
    if events != [] {
      NoProgressYet(events[..|events| - 1]);
    }
  }

  /** The job sends its line total once and first, so that label is right after every drain of every job. */
  lemma JobTotalsAreNeverStale(files: seq<JobFile>, state: Progress, from: nat, to: nat)
    requires from <= to <= |JobEvents(files)|
    ensures !TotalLabelIsStale(state, JobEvents(files)[from..to])
  {
    hide FileEvents, TotalOf, TotalLabelIsStale;
    FilesHaveNoTotals(files);
    var part := JobEvents(files)[from..to];
    forall i, j | 0 <= i < j < |part| && part[i].TotalProgress?
      ensures !part[j].TotalLines?
    {
      assert part[i] == JobEvents(files)[from + i] && part[j] == JobEvents(files)[from + j];
    }
    TotalsFirst(state, part);
  }

  const OPENED := Screen(Progress(0, 0, 0, 0, 0, false), Message(""), 0, 100, Message(""), Message(""), Message(""))

  /** A drain that reaches from the first file of a job into the second shows the progress of the first
      as that of the second. */
  lemma StaleBarHappens() returns (files: seq<JobFile>, taken: seq<Event>)
    ensures taken <= JobEvents(files) && |taken| <= 128 && Unfinished(taken)
    ensures BarIsStale(taken) && FileLabelIsStale(OPENED.state, taken)
    ensures ShownAll(OPENED, Coalesced(taken)) != ShownAll(OPENED, taken)
  {
    var a, b := JobFile("a", 1), JobFile("b", 2);
    files := [a, b];
    var first := [FileIndex(1), FileName("a"), FileLines(1), FileProgress(1), TotalProgress(1)];
    assert FileEvents([a]) == first by {
      assert [a][..0] == [];
    }
    assert files[..1] == [a];
    var second := [FileIndex(2), FileName("b"), FileLines(2)];
    assert FileEvents(files) == first + (second + LineReports(2, TotalOf([a]), 2));
    taken := [TotalFiles(2), TotalLines(TotalOf(files))] + first + second;
    assert taken <= JobEvents(files);
    CrossedFile(taken);
    CoalescingIsInvisibleIff(OPENED, taken);
  }

  lemma CrossedFile(taken: seq<Event>)
    requires |taken| == 10 && taken[5] == FileProgress(1) && taken[6].TotalProgress? && taken[7].FileIndex?
    requires taken[8].FileName? && taken[9] == FileLines(2) && taken[4] == FileLines(1) && Unfinished(taken)
    ensures BarIsStale(taken) && FileLabelIsStale(OPENED.state, taken)
  {
    hide FileValue, NameFollows, SizeThen, AfterAll;
    var six := taken[..6];
    SkipsTo(OPENED.state, taken, 10);
    SkipsTo(OPENED.state, taken[..9], 9);
    SkipsTo(OPENED.state, taken[..8], 8);
    SkipsTo(OPENED.state, taken[..7], 7);
    assert taken[..9][..8] == taken[..8] && taken[..8][..7] == taken[..7] && taken[..7][..6] == six
      && taken[..10] == taken;
    AtProgress(OPENED.state, six);
    assert six[..5] == taken[..5];
    SizeAfterLines(OPENED.state, taken[..5]);
    SizeAfterLines(OPENED.state, taken);
  }

  lemma SkipsTo(state: Progress, events: seq<Event>, n: nat)
    requires |events| == n > 0 && !events[n - 1].FileProgress?
    ensures FileValue(events) == FileValue(events[..n - 1])
      && SizeThen(state, events) == SizeThen(state, events[..n - 1])
    ensures NameFollows(events) <==> events[n - 1].FileName? || NameFollows(events[..n - 1])
  {
  }

  lemma AtProgress(state: Progress, events: seq<Event>)
    requires events != [] && events[|events| - 1].FileProgress?
    ensures FileValue(events) == Some(events[|events| - 1].value)
    ensures SizeThen(state, events) == AfterAll(state, events[..|events| - 1]).listSize
  {
  }

  lemma SizeAfterLines(state: Progress, events: seq<Event>)
    requires !state.terminal && Unfinished(events) && events != [] && events[|events| - 1].FileLines?
    ensures AfterAll(state, events).listSize == events[|events| - 1].count
  {
    NotTerminal(state, events[..|events| - 1]);
  }

  lemma {:induction false} NotTerminal(state: Progress, events: seq<Event>)
    requires !state.terminal && Unfinished(events)
    ensures !AfterAll(state, events).terminal
  {
    if events != [] {
      NotTerminal(state, events[..|events| - 1]);
    }
  }

  // ---- what the dialog computes ----

  datatype Field = TotalFilesField | FileIndexField | TotalLinesField | CurrentLineField | ListSizeField | BarField
    | RangeField

  function Value(screen: Screen, field: Field): int {
    match field
    case TotalFilesField => screen.state.totalFiles
    case FileIndexField => screen.state.fileIndex
    case TotalLinesField => screen.state.totalLines
    case CurrentLineField => screen.state.currentLine
    case ListSizeField => screen.state.listSize
    case BarField => screen.bar
    case RangeField => screen.range
  }

  /** What one event writes into a field, if anything. */
  function Written(event: Event, field: Field): Option<int> {
    match field
    case TotalFilesField => if event.TotalFiles? then Some(event.count) else None
    case FileIndexField => if event.FileIndex? then Some(event.index) else None
    case TotalLinesField => if event.TotalLines? then Some(event.count) else None
    case CurrentLineField => if event.TotalProgress? then Some(event.value) else None
    case ListSizeField => if event.FileLines? then Some(event.count) else None
    case BarField => if event.FileProgress? then Some(event.value) else if event.FileName? then Some(0) else None
    case RangeField => if event.FileLines? then Some(event.count) else None
  }

  predicate IsLastWriter(events: seq<Event>, i: nat, field: Field)
    requires i < |events|
  {
    Written(events[i], field).Some? && forall j :: i < j < |events| ==> Written(events[j], field).None?
  }

  /** Every number of the dialog is what the last event that concerns it says, and no event concerns
      another number than its own. */
  lemma {:induction false} FieldsAreLastWritten(screen: Screen, events: seq<Event>, field: Field)
    requires Unfinished(events) && !screen.state.terminal
    ensures (forall i :: 0 <= i < |events| ==> Written(events[i], field).None?) ==>
      Value(ShownAll(screen, events), field) == Value(screen, field)
    ensures forall i :: 0 <= i < |events| && IsLastWriter(events, i, field) ==>
      Value(ShownAll(screen, events), field) == Written(events[i], field).value
    ensures !ShownAll(screen, events).state.terminal
  {
    if events != [] {
      var before := events[..|events| - 1];
      FieldsAreLastWritten(screen, before, field);
      FieldStep(ShownAll(screen, before), events[|events| - 1], field);
      hide Shown, Value, Written;
      forall i: nat | i < |events| - 1 && IsLastWriter(events, i, field)
        ensures IsLastWriter(before, i, field)
      {
      }
    }
  }

  lemma FieldStep(screen: Screen, event: Event, field: Field)
    requires !screen.state.terminal && !event.Finished?
    ensures Value(Shown(screen, event), field)
      == if Written(event, field).Some? then Written(event, field).value else Value(screen, field)
    ensures !Shown(screen, event).state.terminal
  {
  }

  /** After the terminal event the state is frozen, whatever still arrives. */
  lemma FinishedFreezes(state: Progress, before: seq<Event>, result: Result, later: seq<Event>)
    ensures AfterAll(state, before + [Finished(result)] + later) == AfterAll(state, before).(terminal := true)
  {
    var finished := before + [Finished(result)];
    AfterConcat(state, finished, later);
    assert finished[..|before|] == before;
    TerminalStays(AfterAll(state, finished), later);
  }

  /** The state never notices: everything the dialog computes with is as after every single event. */
  lemma DrainKeepsState(state: Progress, events: seq<Event>)
    requires events != [] ==> Unfinished(events[..|events| - 1])
    ensures AfterAll(state, Coalesced(events)) == AfterAll(state, events)
  {
    hide Shown, Kept, Latest, FileValue, TotalValue;
    if state.terminal {
      TerminalStays(state, events);
      TerminalStays(state, Coalesced(events));
    } else if events != [] && events[|events| - 1].Finished? {
      var before, last := events[..|events| - 1], events[|events| - 1];
      BodyKeepsState(state, before);
      var body := Kept(before) + Latest(FileValue(before), TotalValue(before));
      assert (body + [last])[..|body|] == body;
    } else {
      BodyKeepsState(state, events);
    }
  }

  lemma BodyKeepsState(state: Progress, events: seq<Event>)
    requires Unfinished(events)
    ensures AfterAll(state, Kept(events) + Latest(FileValue(events), TotalValue(events))) == AfterAll(state, events)
  {
    hide Shown, After, ShownAll, AfterAll, Kept, Latest, FileValue, TotalValue, NameFollows, LinesFollow, SizeThen;
    var screen := Screen(state, Message(""), 0, 0, Message(""), Message(""), Message(""));
    KeptPatched(screen, events);
    var kept := ShownAll(screen, Kept(events));
    var latest := Latest(FileValue(events), TotalValue(events));
    ShownConcat(screen, Kept(events), latest);
    ShownLatest(kept, FileValue(events), TotalValue(events));
    ShownState(screen, events);
    ShownState(screen, Kept(events) + latest);
  }

  lemma {:induction false} TerminalStays(state: Progress, events: seq<Event>)
    requires state.terminal
    ensures AfterAll(state, events) == state
  {
    if events != [] {
      TerminalStays(state, events[..|events| - 1]);
    }
  }

  lemma {:induction false} AfterConcat(state: Progress, a: seq<Event>, b: seq<Event>)
    ensures AfterAll(state, a + b) == AfterAll(AfterAll(state, a), b)
  {
    hide After;
    if b == [] {
      assert a + b == a;
    } else {
      assert (a + b)[..|a + b| - 1] == a + b[..|b| - 1];
      AfterConcat(state, a, b[..|b| - 1]);
    }
  }

  /** The same over any number of drains, whatever their budgets. */
  lemma {:induction false} AllDrainsKeepState(state: Progress, taken: seq<seq<Event>>)
    requires forall i :: 0 <= i < |taken| && taken[i] != [] ==> Unfinished(taken[i][..|taken[i]| - 1])
    ensures AfterAll(state, Flatten(Map(Coalesced, taken))) == AfterAll(state, Flatten(taken))
    decreases |taken|
  {
    hide Coalesced, After, AfterAll;
    if taken != [] {
      DrainKeepsState(state, taken[0]);
      var first := AfterAll(state, taken[0]);
      assert Map(Coalesced, taken)[1..] == Map(Coalesced, taken[1..]);
      AllDrainsKeepState(first, taken[1..]);
      AfterConcat(state, taken[0], Flatten(taken[1..]));
      AfterConcat(state, Coalesced(taken[0]), Flatten(Map(Coalesced, taken[1..])));
    }
  }

  /** Other events keep their order, and nothing comes after `Finished`. */
  lemma CoalescedKeepsOrder(events: seq<Event>)
    requires events != [] ==> Unfinished(events[..|events| - 1])
    ensures Kept(Coalesced(events)) == Kept(events)
    ensures forall i :: 0 <= i < |Coalesced(events)| && Coalesced(events)[i].Finished? ==> i == |Coalesced(events)| - 1
    ensures EndsFinished(Coalesced(events)) == EndsFinished(events)
  {
    hide Kept, Latest, FileValue, TotalValue;
    var body := if EndsFinished(events) then events[..|events| - 1] else events;
    var kept, latest := Kept(body), Latest(FileValue(body), TotalValue(body));
    KeptOfKept(body);
    NothingKept(latest);
    KeptConcat(kept, latest);
    assert kept + [] == kept;
    if EndsFinished(events) {
      var last := events[|events| - 1];
      NothingKept([last]);
      KeptConcat(kept + latest, [last]);
      KeptConcat(body, [last]);
      assert events == body + [last];
    }
  }

  predicate EndsFinished(events: seq<Event>) {
    events != [] && events[|events| - 1].Finished?
  }

  lemma {:induction false} KeptConcat(a: seq<Event>, b: seq<Event>)
    ensures Kept(a + b) == Kept(a) + Kept(b)
  {
    if b == [] {
      assert a + b == a;
    } else {
      assert (a + b)[..|a + b| - 1] == a + b[..|b| - 1];
      KeptConcat(a, b[..|b| - 1]);
    }
  }

  lemma {:induction false} NothingKept(events: seq<Event>)
    requires forall i :: 0 <= i < |events| ==> !IsOrdinary(events[i])
    ensures Kept(events) == []
  {
    if events != [] {
      NothingKept(events[..|events| - 1]);
    }
  }

  lemma {:induction false} KeptOfKept(events: seq<Event>)
    ensures Kept(Kept(events)) == Kept(events)
  {
    if events != [] {
      var before := Kept(events[..|events| - 1]);
      KeptOfKept(events[..|events| - 1]);
      if IsOrdinary(events[|events| - 1]) {
        assert (before + [events[|events| - 1]])[..|before|] == before;
      } else {
        assert before + [] == before;
      }
    }
  }
}
