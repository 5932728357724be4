/** What the progress dialog says, label by label. */
module ProgressLabels {
  import opened Prelude
  import opened ProgressDrain

  datatype LabelField = NameLabel | IndexLabel | TotalLabel | ProgressLabel

  function LabelOf(screen: Screen, field: LabelField): Label {
    match field
    case NameLabel => screen.name
    case IndexLabel => screen.index
    case TotalLabel => screen.total
    case ProgressLabel => screen.progress
  }

  /** What an event in front of the terminal one puts on a label, if anything. `state` is that before the event. */
  function Labelled(state: Progress, event: Event, field: LabelField): Option<Label> {
    match field
    case NameLabel => if event.FileName? then Some(File(event.name, state.fileIndex, state.totalFiles)) else None
    case IndexLabel =>
      if event.TotalFiles? then Some(Ratio(0, event.count))
      else if event.FileIndex? then Some(Ratio(event.index, state.totalFiles)) else None
    case TotalLabel =>
      if event.TotalLines? then Some(Ratio(0, event.count))
      else if event.TotalProgress? then Some(Ratio(event.value, state.totalLines)) else None
    case ProgressLabel => if event.FileProgress? then Some(Ratio(event.value, state.listSize)) else None
  }

  /** The event puts something on the label, whatever the state. */
  predicate Labels(event: Event, field: LabelField) {
    match field
    case NameLabel => event.FileName?
    case IndexLabel => event.TotalFiles? || event.FileIndex?
    case TotalLabel => event.TotalLines? || event.TotalProgress?
    case ProgressLabel => event.FileProgress?
  }

  predicate IsLastLabel(events: seq<Event>, i: nat, field: LabelField)
    requires i < |events|
  {
    Labels(events[i], field) && forall j :: i < j < |events| ==> !Labels(events[j], field)
  }

  /** What event number `i` puts on the label. */
  function PutAt(state: Progress, events: seq<Event>, i: nat, field: LabelField): Option<Label>
    requires i < |events|
  {
    Labelled(AfterAll(state, events[..i]), events[i], field)
  }

  predicate NeverPut(events: seq<Event>, field: LabelField) {
    forall i :: 0 <= i < |events| ==> !Labels(events[i], field)
  }

  /** `shown` is what the last event that concerns the label put there, or what was there at first. */
  predicate IsLastPut(shown: Label, first: Label, state: Progress, events: seq<Event>, field: LabelField) {
    && (NeverPut(events, field) ==> shown == first)
    && (forall i :: 0 <= i < |events| && IsLastLabel(events, i, field) ==>
          Some(shown) == PutAt(state, events, i, field))
  }

  /** In front of the terminal event, each label says what the last event that concerns it puts there, with the
      numbers of that moment. */
  lemma {:induction false} LabelsAreLastPut(screen: Screen, events: seq<Event>, field: LabelField)
    requires Unfinished(events) && !screen.state.terminal
    ensures IsLastPut(LabelOf(ShownAll(screen, events), field), LabelOf(screen, field), screen.state, events, field)
    decreases |events|
  {
    if events != [] {
      var n := |events| - 1;
      var before := events[..n];
      LabelsAreLastPut(screen, before, field);
      TerminalWhenShown(screen, before);
      ShownState(screen, before);
      hide Shown, AfterAll, Labelled, Labels, LabelOf, IsLastPut;
      LabelStep(ShownAll(screen, before), events[n], field);
      PutOnceMore(LabelOf(ShownAll(screen, before), field), LabelOf(ShownAll(screen, events), field),
                  LabelOf(screen, field), screen.state, events, field);
    }
  }

  lemma PutOnceMore(shown: Label, next: Label, first: Label, state: Progress, events: seq<Event>, field: LabelField)
    requires events != [] && IsLastPut(shown, first, state, events[..|events| - 1], field)
    requires var n := |events| - 1;
      if Labels(events[n], field) then Some(next) == Labelled(AfterAll(state, events[..n]), events[n], field)
      else next == shown
    ensures IsLastPut(next, first, state, events, field)
  {
    hide PutAt, Labels, IsLastLabel, NeverPut;
    var n := |events| - 1;
    if NeverPut(events, field) {
      NeverPutBefore(events, field);
    }
    LastOne(state, events, field);
    forall i: nat | i < |events| && IsLastLabel(events, i, field)
      ensures Some(next) == PutAt(state, events, i, field)
    {
      if i < n {
        EarlierOne(state, events, i, field);
      }
    }
  }

  lemma NeverPutBefore(events: seq<Event>, field: LabelField)
    requires events != [] && NeverPut(events, field)
    ensures NeverPut(events[..|events| - 1], field) && !Labels(events[|events| - 1], field)
  {
  }

  lemma LastOne(state: Progress, events: seq<Event>, field: LabelField)
    requires events != []
    ensures var n := |events| - 1;
      && PutAt(state, events, n, field) == Labelled(AfterAll(state, events[..n]), events[n], field)
      && (IsLastLabel(events, n, field) <==> Labels(events[n], field))
  {
  }

  lemma EarlierOne(state: Progress, events: seq<Event>, i: nat, field: LabelField)
    requires i < |events| - 1 && IsLastLabel(events, i, field)
    ensures var before := events[..|events| - 1];
      && IsLastLabel(before, i, field) && !Labels(events[|events| - 1], field)
      && PutAt(state, before, i, field) == PutAt(state, events, i, field)
  {
    hide Labels, Labelled, AfterAll;
    assert events[..|events| - 1][..i] == events[..i];
  }

  lemma LabelStep(screen: Screen, event: Event, field: LabelField)
    requires !screen.state.terminal && !event.Finished?
    ensures if Labels(event, field) then
              Some(LabelOf(Shown(screen, event), field)) == Labelled(screen.state, event, field)
            else LabelOf(Shown(screen, event), field) == LabelOf(screen, field)
  {
  }

  /** After all events of a job the dialog has counted every line. */
  lemma JobCountsAllLines(files: seq<JobFile>, state: Progress)
    requires !state.terminal && state.currentLine == 0
    ensures AfterAll(state, JobEvents(files)).currentLine == TotalOf(files)
  {
    hide FileEvents, AfterAll;
    var totals := [TotalFiles(|files|), TotalLines(TotalOf(files))];
    AfterTwo(state, totals[0], totals[1]);
    AfterConcat(state, totals, FileEvents(files));
    FilesCounted(files, AfterAll(state, totals));
  }

  lemma AfterOne(state: Progress, a: Event)
    ensures AfterAll(state, [a]) == After(state, a)
  {
    assert [a][..0] == [];
  }

  lemma AfterTwo(state: Progress, a: Event, b: Event)
    ensures AfterAll(state, [a, b]) == After(After(state, a), b)
  {
    assert [a, b][..1] == [a];
    AfterOne(state, a);
  }

  lemma AfterThree(state: Progress, a: Event, b: Event, c: Event)
    ensures AfterAll(state, [a, b, c]) == After(After(After(state, a), b), c)
  {
    assert [a, b, c][..2] == [a, b];
    AfterTwo(state, a, b);
  }

  lemma {:induction false} FilesCounted(files: seq<JobFile>, state: Progress)
    requires !state.terminal
    ensures var after := AfterAll(state, FileEvents(files));
      !after.terminal && after.currentLine == if TotalOf(files) == 0 then state.currentLine else TotalOf(files)
    decreases |files|
  {
    if files != [] {
      hide AfterAll, LineReports;
      var before, file := files[..|files| - 1], files[|files| - 1];
      FilesCounted(before, state);
      var middle := AfterAll(state, FileEvents(before));
      var head := [FileIndex(|files|), FileName(file.name), FileLines(file.lines)];
      AfterConcat(state, FileEvents(before), head + LineReports(file.lines, TotalOf(before), file.lines));
      AfterConcat(middle, head, LineReports(file.lines, TotalOf(before), file.lines));
      AfterThree(middle, head[0], head[1], head[2]);
      LinesCounted(AfterAll(middle, head), file.lines, TotalOf(before), file.lines);
    }
  }

  /** The last report of a file is about its last line. */
  lemma {:induction false} LinesCounted(state: Progress, lines: nat, earlier: nat, done: nat)
    requires !state.terminal
    ensures var after := AfterAll(state, LineReports(lines, earlier, done));
      !after.terminal && (done == lines > 0 ==> after.currentLine == earlier + done)
      && (done == 0 ==> after == state)
  {
    if done > 0 {
      LinesCounted(state, lines, earlier, done - 1);
      var reports := LineReports(lines, earlier, done - 1);
      AfterConcat(state, reports, [FileProgress(done), TotalProgress(earlier + done)]);
      AfterTwo(AfterAll(state, reports), FileProgress(done), TotalProgress(earlier + done));
      assert reports + [] == reports;
    }
  }

  /** How each job ends is told apart on the screen, and a failure leaves the progress of the file where it was. */
  lemma FinishedShows(screen: Screen, result: Result)
    ensures var s := Shown(screen, Finished(result));
      && s.bar == screen.bar && s.range == screen.range && s.index == screen.index && s.total == screen.total
      && (result == Completed ==> s.name == Message("done") && s.progress == Message("translated"))
      && (result == Cancelled ==> s.name == Message("cancelled") && s.progress == Message("translation cancelled"))
      && (result.Failed? ==> s.name == Message("error") && s.progress == screen.progress)
  {
  }
}
