/** The reducer field by field: which events write which part of the model, and with what result. */
module ModelFields {
  import opened Prelude
  import opened ActionQueue

  datatype Switch = Watch | Visible | ClicksThrough | Background | Border | Magnet

  datatype Field =
    | LastCheck | ManualRoute | FileRoute | Placement | Target | MergeWindow | Merger | Session | Profiles
    | Entries | Keys | Look | Sizes | Flag(switch: Switch)

  /** What a field holds, all values put into one type. */
  datatype FieldValue =
    | Time(t: int) | Route(r: Option<string>) | At(p: WindowPlacement) | Hooked(e: bool, h: HookTarget)
    | Window(ms: nat) | Connected(s: Option<HookSession>) | Saved(profiles: seq<SavedHookProfile>)
    | Lines(lines: seq<string>) | Registered(keys: seq<int>) | Looks(look: string)
    | TextSizes(name: int, original: int, translation: int) | On(on: bool)

  function SwitchOf(c: Config, switch: Switch): bool {
    match switch
    case Watch => c.clipboardWatch
    case Visible => c.windowVisible
    case ClicksThrough => c.clickThrough
    case Background => c.backgroundVisible
    case Border => c.borderVisible
    case Magnet => c.magneticMode
  }

  function FieldOf(m: Model, field: Field): FieldValue {
    match field
    case LastCheck => Time(m.config.lastUpdateCheck)
    case ManualRoute => Route(m.config.manual)
    case FileRoute => Route(m.config.file)
    case Placement => At(m.config.placement)
    case Target => Hooked(m.config.hook.enabled, m.config.hook.target)
    case MergeWindow => Window(m.config.hook.mergeWindowMs)
    case Merger => Window(m.mergerWindowMs)
    case Session => Connected(m.hookSession)
    case Profiles => Saved(m.config.hook.profiles)
    case Entries => Lines(m.backlog)
    case Keys => Registered(m.config.hotkeys)
    case Look => Looks(m.config.look)
    case Sizes => TextSizes(m.config.nameSize, m.config.originalSize, m.config.translationSize)
    case Flag(switch) => On(SwitchOf(m.config, switch))
  }

  /** The fields are the whole model. */
  lemma FieldsAreAll(m: Model, n: Model)
    requires forall field: Field :: FieldOf(m, field) == FieldOf(n, field)
    ensures m == n
  {
    hide FieldOf;
    FieldsAreModel(m, n);
  }

  lemma FieldsAreModel(m: Model, n: Model)
    requires FieldOf(m, LastCheck) == FieldOf(n, LastCheck) && FieldOf(m, ManualRoute) == FieldOf(n, ManualRoute)
    requires FieldOf(m, FileRoute) == FieldOf(n, FileRoute) && FieldOf(m, Placement) == FieldOf(n, Placement)
    requires FieldOf(m, Target) == FieldOf(n, Target) && FieldOf(m, MergeWindow) == FieldOf(n, MergeWindow)
    requires FieldOf(m, Merger) == FieldOf(n, Merger) && FieldOf(m, Session) == FieldOf(n, Session)
    requires FieldOf(m, Profiles) == FieldOf(n, Profiles) && FieldOf(m, Entries) == FieldOf(n, Entries)
    requires FieldOf(m, Keys) == FieldOf(n, Keys) && FieldOf(m, Look) == FieldOf(n, Look)
    requires FieldOf(m, Sizes) == FieldOf(n, Sizes) && FieldOf(m, Flag(Watch)) == FieldOf(n, Flag(Watch))
    requires FieldOf(m, Flag(Visible)) == FieldOf(n, Flag(Visible))
    requires FieldOf(m, Flag(ClicksThrough)) == FieldOf(n, Flag(ClicksThrough))
    requires FieldOf(m, Flag(Background)) == FieldOf(n, Flag(Background))
    requires FieldOf(m, Flag(Border)) == FieldOf(n, Flag(Border))
    requires FieldOf(m, Flag(Magnet)) == FieldOf(n, Flag(Magnet))
    ensures m == n
  {
  }

  // ---- what events write ----

  /** What the settings dialog edits. */
  function FromDraft(draft: Config, field: Field): Option<FieldValue> {
    match field
    case Look => Some(Looks(draft.look))
    case Sizes => Some(TextSizes(draft.nameSize, draft.originalSize, draft.translationSize))
    case Flag(switch) => Some(On(SwitchOf(draft, switch)))
    case _ => None
  }

  /** What an event writes to a field whatever is in it, if it does. */
  function Written(event: Event, field: Field): Option<FieldValue> {
    match event
    case SettingsWritten(watch, magnetic) =>
      if field == Flag(Watch) then Some(On(watch)) else if field == Flag(Magnet) then Some(On(magnetic)) else None
    case WindowMoved(placement) => if field.Placement? then Some(At(placement)) else None
    case Attached(target, exeSha256) =>
      if field.Target? then Some(Hooked(true, target))
      else if field.Session? then Some(Connected(Some(HookSession(target.processName, exeSha256)))) else None
    case Detached => if field.Session? then Some(Connected(None)) else None
    case Acted(PreviewSettings(draft)) => FromDraft(draft, field)
    case Acted(CommitSettings(draft)) =>
      if field.Keys? then Some(Registered(draft.hotkeys)) else FromDraft(draft, field)
    case Acted(ClearBacklog) => if field.Entries? then Some(Lines([])) else None
    case Acted(UpdateCheckSettled(time)) => if field.LastCheck? && time.Some? then Some(Time(time.value)) else None
    case Acted(SetTranslationRoute(route, selection)) =>
      if (field.ManualRoute? && route.Manual?) || (field.FileRoute? && route.File?) then Some(Route(Some(selection)))
      else None
    case Acted(SetHookMergeWindow(ms)) =>
      if field.MergeWindow? then Some(Window(if ms < 100 then 100 else if ms > 5000 then 5000 else ms)) else None
    case Acted(_) => None
  }

  /** The command that turns a switch over. */
  function Toggle(switch: Switch): Command {
    match switch
    case Watch => ClipboardWatch
    case Visible => WindowShow
    case ClicksThrough => ClickThrough
    case Background => BackgroundToggle
    case Border => BorderToggle
    case Magnet => MagneticMode
  }

  /** The event changes the field, starting from what is in it. */
  predicate Turns(event: Event, field: Field) {
    match field
    case Flag(switch) => event == Acted(RunCommand(Toggle(switch)))
    case Sizes => event == Acted(RunCommand(TextSizeUp)) || event == Acted(RunCommand(TextSizeDown))
    case Profiles => event.Acted? && event.action.SaveHookProfile?
    case Merger => event.Acted? && event.action.SetHookMergeWindow?
    case _ => false
  }

  /** What such an event makes of the field. */
  ghost predicate IsTurned(m: Model, event: Event, field: Field, after: FieldValue)
    requires Turns(event, field)
  {
    match field
    case Flag(switch) => after == On(SwitchOf(m.config, switch) != (switch != Watch || m.hookSession.None?))
    case Sizes =>
      var size := m.config.translationSize;
      var next := if event == Acted(RunCommand(TextSizeUp)) then (if size >= 100 then 100 else size + 1)
                  else (if size <= 6 then 6 else size - 1);
      after == TextSizes(next, next, next)
    case Profiles => after.Saved? && SavesProfile(m, event.action, after.profiles)
    case Merger =>
      var ms := event.action.windowMs;
      var clamped := if ms < 100 then 100 else if ms > 5000 then 5000 else ms;
      after == Window(if m.config.hook.mergeWindowMs == clamped then m.mergerWindowMs else clamped)
  }

  /** Without a session nothing is saved. Otherwise the new profile is the last one, and in front of it stand the
      newest profiles of other games. */
  ghost predicate SavesProfile(m: Model, action: Action, after: seq<SavedHookProfile>)
    requires action.SaveHookProfile?
  {
    if m.hookSession.None? then after == m.config.hook.profiles
    else
      var session := m.hookSession.value;
      var profile := SavedHookProfile(session.processName, session.exeSha256, action.hookName, action.hookCode);
      && 1 <= |after| <= 64 && after[|after| - 1] == profile
      && IsSuffix(after, OtherGames(m.config.hook.profiles, profile) + [profile])
      && (|after| < 64 ==> |after| == |OtherGames(m.config.hook.profiles, profile)| + 1)
  }

  /** Every event writes the fields that are its own, and leaves all others. */
  lemma EventWrites(m: Model, event: Event, field: Field)
    ensures var after := FieldOf(Occur(m, event), field);
      if Written(event, field).Some? then after == Written(event, field).value
      else if Turns(event, field) then IsTurned(m, event, field, after)
      else after == FieldOf(m, field)
  {
    if event.Acted? {
      ActionWrites(m, event.action, field);
      hide Reduce, FieldOf, Written, Turns, IsTurned;
    } else {
      OthersWrite(m, event, field);
    }
  }

  lemma OthersWrite(m: Model, event: Event, field: Field)
    requires !event.Acted?
    ensures !Turns(event, field)
    ensures FieldOf(Occur(m, event), field)
         == if Written(event, field).Some? then Written(event, field).value else FieldOf(m, field)
  {
  }

  lemma ActionWrites(m: Model, action: Action, field: Field)
    ensures var event, after := Acted(action), FieldOf(Reduce(m, action).0, field);
      if Written(event, field).Some? then after == Written(event, field).value
      else if Turns(event, field) then IsTurned(m, event, field, after)
      else after == FieldOf(m, field)
  {
    hide SaveProfile, ReduceCommand, ReduceRoute, Merged;
    match action {
      case RunCommand(command) => CommandWrites(m, command, field);
      case SetTranslationRoute(route, selection) => RouteWrites(m, route, selection, field);
      case PreviewSettings(draft) => MergedFields(m, draft, field);
      case CommitSettings(draft) => MergedFields(m, draft, field);
      case SaveHookProfile(_, _) => ProfileWrites(m, action, field);
      case SetHookMergeWindow(_) => WindowWrites(m, action, field);
      case _ =>
    }
  }

  lemma ProfileWrites(m: Model, action: Action, field: Field)
    requires action.SaveHookProfile?
    ensures var after := FieldOf(Reduce(m, action).0, field);
      if field.Profiles? then IsTurned(m, Acted(action), field, after) else after == FieldOf(m, field)
  {
    hide SaveProfile;
  }

  lemma WindowWrites(m: Model, action: Action, field: Field)
    requires action.SetHookMergeWindow?
    ensures var event, after := Acted(action), FieldOf(Reduce(m, action).0, field);
      if field.MergeWindow? then after == Written(event, field).value
      else if field.Merger? then IsTurned(m, event, field, after)
      else after == FieldOf(m, field)
  {
    hide SaveProfile;
  }

  lemma MergedFields(m: Model, draft: Config, field: Field)
    ensures var after := FieldOf(m.(config := Merged(draft, m.config)), field);
      if field.Keys? then after == Registered(draft.hotkeys)
      else if FromDraft(draft, field).Some? then after == FromDraft(draft, field).value
      else after == FieldOf(m, field)
  {
  }

  lemma RouteWrites(m: Model, route: TranslationRoute, selection: string, field: Field)
    ensures var event := Acted(SetTranslationRoute(route, selection));
      FieldOf(ReduceRoute(m, route, selection).0, field)
      == if Written(event, field).Some? then Written(event, field).value else FieldOf(m, field)
  {
  }

  lemma CommandWrites(m: Model, command: Command, field: Field)
    ensures var event, after := Acted(RunCommand(command)), FieldOf(ReduceCommand(m, command).0, field);
      if Turns(event, field) then IsTurned(m, event, field, after) else after == FieldOf(m, field)
  {
  }

  /** The last event that touches the field writes it whatever is in it. */
  predicate IsLastWriter(events: seq<Event>, field: Field, i: nat) {
    && i < |events| && Written(events[i], field).Some?
    && forall j :: i < j < |events| ==> Written(events[j], field).None? && !Turns(events[j], field)
  }

  /** Each field ends as the last event that writes it left it, unless later ones turn it. */
  lemma {:induction false} LastWriterWins(m: Model, events: seq<Event>, field: Field)
    ensures forall i: nat :: IsLastWriter(events, field, i) ==>
      FieldOf(Run(m, events), field) == Written(events[i], field).value
    ensures (forall i :: 0 <= i < |events| ==> Written(events[i], field).None? && !Turns(events[i], field)) ==>
      FieldOf(Run(m, events), field) == FieldOf(m, field)
    decreases |events|
  {
    hide Occur, FieldOf, Written, Turns, IsTurned;
    if events != [] {
      EventWrites(m, events[0], field);
      var rest := events[1..];
      LastWriterWins(Occur(m, events[0]), rest, field);
      assert forall j :: 0 <= j < |rest| ==> rest[j] == events[j + 1];
      forall i: nat | IsLastWriter(events, field, i)
        ensures FieldOf(Run(m, events), field) == Written(events[i], field).value
      {
        if i > 0 {
          assert IsLastWriter(rest, field, i - 1);
        }
      }
    }
  }

  /** How often a switch is turned over. */
  function Flips(events: seq<Event>, switch: Switch): nat {
    if events == [] then 0 else (if Turns(events[0], Flag(switch)) then 1 else 0) + Flips(events[1..], switch)
  }

  lemma OneMore(n: nat)
    ensures (1 + n) % 2 == 1 <==> n % 2 != 1
  {
  }

  lemma FlagStep(m: Model, event: Event, switch: Switch)
    requires switch != Watch && Written(event, Flag(switch)).None?
    ensures SwitchOf(Occur(m, event).config, switch) == (SwitchOf(m.config, switch) != Turns(event, Flag(switch)))
  {
    EventWrites(m, event, Flag(switch));
    hide Occur, Written, Turns;
  }

  /** With nothing that writes a switch outright, only the parity of its commands matters. */
  lemma {:induction false} TogglesCount(m: Model, events: seq<Event>, switch: Switch)
    requires switch != Watch && forall i :: 0 <= i < |events| ==> Written(events[i], Flag(switch)).None?
    ensures SwitchOf(Run(m, events).config, switch) == (SwitchOf(m.config, switch) != (Flips(events, switch) % 2 == 1))
    decreases |events|
  {
    hide Occur, Written, Turns, SwitchOf;
    if events != [] {
      var rest := events[1..];
      FlagStep(m, events[0], switch);
      assert forall i :: 0 <= i < |rest| ==> rest[i] == events[i + 1];
      TogglesCount(Occur(m, events[0]), rest, switch);
      OneMore(Flips(rest, switch));
    }
  }

  // ---- drafts take effect ----

  /** After a commit the configuration is the draft, but for what the dialog does not edit; after a preview the
      hotkeys are still the old ones besides. */
  lemma DraftTakesEffect(m: Model, draft: Config)
    ensures var c := Reduce(m, CommitSettings(draft)).0.config;
      draft == c.(lastUpdateCheck := draft.lastUpdateCheck, hook := draft.hook, manual := draft.manual,
                  file := draft.file, placement := draft.placement)
    ensures var c := Reduce(m, PreviewSettings(draft)).0.config;
      && c.hotkeys == m.config.hotkeys
      && draft == c.(lastUpdateCheck := draft.lastUpdateCheck, hook := draft.hook, manual := draft.manual,
                     file := draft.file, placement := draft.placement, hotkeys := draft.hotkeys)
  {
  }

  // ---- effects follow the model ----

  /** Effects that pass a switch on carry its new value, and a switch that changed is passed on. */
  predicate SwitchesPassedOn(c: Config, n: Config, effects: seq<Effect>) {
    && (forall e :: e in effects ==>
          && (e.SetWindowVisible? ==> e.on == n.windowVisible) && (e.SetClickThrough? ==> e.on == n.clickThrough)
          && (e.SetClipboardWatch? ==> e.on == n.clipboardWatch) && (e.SetMagnetic? ==> e.on == n.magneticMode))
    && (n.windowVisible != c.windowVisible ==> SetWindowVisible(n.windowVisible) in effects)
    && (n.clickThrough != c.clickThrough ==> SetClickThrough(n.clickThrough) in effects)
    && (n.clipboardWatch != c.clipboardWatch ==> SetClipboardWatch(n.clipboardWatch) in effects)
    && (n.magneticMode != c.magneticMode ==> SetMagnetic(n.magneticMode) in effects)
  }

  lemma CommandsPassOn(m: Model, command: Command)
    ensures SwitchesPassedOn(m.config, ReduceCommand(m, command).0.config, ReduceCommand(m, command).1)
  {
  }

  /** What changes the picture is painted. */
  lemma CommandsRepaint(m: Model, command: Command)
    ensures var c, n := m.config, ReduceCommand(m, command).0.config;
      (c.backgroundVisible != n.backgroundVisible || c.borderVisible != n.borderVisible || c.nameSize != n.nameSize
       || c.originalSize != n.originalSize || c.translationSize != n.translationSize)
      ==> Repaint in ReduceCommand(m, command).1
  {
    var effects := ReduceCommand(m, command).1;
    if command.BackgroundToggle? || command.BorderToggle? || command.TextSizeUp? || command.TextSizeDown? {
      assert effects == [Repaint];
    }
  }

  /** What must survive a restart is saved, and drafts are shown. */
  lemma ChangesAreSaved(m: Model, action: Action)
    ensures var (n, effects) := Reduce(m, action);
      && (n.config.lastUpdateCheck != m.config.lastUpdateCheck || n.config.hook != m.config.hook
          || n.config.manual != m.config.manual || n.config.file != m.config.file || action.CommitSettings? ==>
            SaveConfig in effects)
      && (action.PreviewSettings? || action.CommitSettings? ==> SyncWindowState in effects && Repaint in effects)
  {
    hide SaveProfile, ReduceCommand;
    match action {
      case RunCommand(command) => CommandKeeps(m, command);
      case _ =>
    }
  }

  /** Painting, saving, window flags, hotkeys, the cache, closing and updates never write to the model. */
  lemma SilentEffects(event: Event, effects: seq<Effect>)
    requires forall i :: 0 <= i < |effects| ==>
      || effects[i] in [Repaint, SaveConfig, ReregisterHotkeys, ClearCache, Close, CheckUpdate, ApplyUpdate]
      || effects[i].SetWindowVisible? || effects[i].SetClickThrough?
    ensures !WrittenBy(event, effects)
  {
  }

  /** Commands and notifications that only pass something on do so once, and change nothing. */
  lemma PassedOn(m: Model)
    ensures forall kind :: Reduce(m, RunCommand(OpenCommand(kind))) == (m, [OpenDialog(kind)])
    ensures Reduce(m, RunCommand(HookStopCommand)) == (m, [HookStop]) && Reduce(m, RunCommand(Exit)) == (m, [Close])
    ensures Reduce(m, ClearTranslationCache) == (m, [ClearCache])
    ensures Reduce(m, SettingsDialogClosed) == (m, [SettingsClosed])
    ensures forall s :: Reduce(m, TranslateDialogClosed(s)) == (m, [TranslateClosed(s)])
    ensures forall s :: Reduce(m, FileTransDialogClosed(s)) == (m, [FileTransClosed(s)])
    ensures Reduce(m, RequestUpdateCheck) == (m, [CheckUpdate]) && Reduce(m, RequestUpdateApply) == (m, [ApplyUpdate])
  {
  }

  /** Two profiles are of the same game if the new one has a digest and the old one has the same, or if their
      process names agree but for the case of letters. */
  lemma SameGameIff(saved: SavedHookProfile, profile: SavedHookProfile)
    ensures SameGame(saved, profile) <==>
      || (saved.exeSha256.Some? && profile.exeSha256.Some? && saved.exeSha256.value == profile.exeSha256.value)
      || SameName(saved.processName, profile.processName)
  {
  }

  /** Names are compared without regard to the case of the letters A to Z. */
  lemma SameNameIff(a: string, b: string)
    ensures SameName(a, b) <==>
      && |a| == |b|
      && forall i :: 0 <= i < |a| ==>
           || a[i] == b[i]
           || ('A' <= a[i] <= 'Z' && b[i] as int == a[i] as int + 32)
           || ('A' <= b[i] <= 'Z' && a[i] as int == b[i] as int + 32)
  {
    if |a| == |b| {
      forall i | 0 <= i < |a|
        ensures AsciiLower(a[i]) == AsciiLower(b[i]) <==>
          || a[i] == b[i]
          || ('A' <= a[i] <= 'Z' && b[i] as int == a[i] as int + 32)
          || ('A' <= b[i] <= 'Z' && a[i] as int == b[i] as int + 32)
      {
      }
      hide AsciiLower;
    }
  }
}
