/** The queue between the dialogs and the application, and the reducer behind it. */
module ActionQueue {
  import opened Prelude

  // ---- the model ----

  datatype SavedHookProfile = SavedHookProfile(processName: string, exeSha256: Option<string>, hookName: string,
                                               hookCode: Option<string>)

  /** The process that text was hooked from last. */
  datatype HookTarget = HookTarget(pid: nat, processName: string)

  datatype HookConfig = HookConfig(enabled: bool, target: HookTarget, mergeWindowMs: nat,
                                   profiles: seq<SavedHookProfile>)

  datatype WindowPlacement = WindowPlacement(x: Option<int>, y: Option<int>, width: Option<int>, height: Option<int>)

  datatype TranslationRoute = Manual | File

  /** `look` stands for everything that only the settings dialog edits. */
  datatype Config = Config(
    hotkeys: seq<int>, lastUpdateCheck: int, hook: HookConfig, manual: Option<string>, file: Option<string>,
    placement: WindowPlacement, clipboardWatch: bool, windowVisible: bool, clickThrough: bool, backgroundVisible: bool,
    borderVisible: bool, magneticMode: bool, nameSize: int, originalSize: int, translationSize: int, look: string)

  datatype HookSession = HookSession(processName: string, exeSha256: Option<string>)

  datatype Model = Model(config: Config, backlog: seq<string>, hookSession: Option<HookSession>, mergerWindowMs: nat)

  datatype DialogKind = Settings | Translate | Backlog | FileTranslation | HookFind

  datatype Command =
    | WindowShow | ClickThrough | ClipboardWatch | BackgroundToggle | BorderToggle | MagneticMode
    | TextSizeUp | TextSizeDown | OpenCommand(kind: DialogKind) | HookStopCommand | Exit

  datatype Action =
    | RunCommand(command: Command)
    | PreviewSettings(draft: Config)
    | CommitSettings(draft: Config)
    | ClearBacklog
    | ClearTranslationCache
    | SetTranslationRoute(route: TranslationRoute, selection: string)
    | SaveHookProfile(hookName: string, hookCode: Option<string>)
    | SetHookMergeWindow(windowMs: nat)
    | SettingsDialogClosed
    | TranslateDialogClosed(session: nat)
    | FileTransDialogClosed(session: nat)
    | UpdateCheckSettled(newLastCheck: Option<int>)
    | RequestUpdateCheck
    | RequestUpdateApply

  datatype Effect =
    | Repaint | SyncWindowState | SaveConfig | SetWindowVisible(on: bool) | SetClickThrough(on: bool)
    | SetClipboardWatch(on: bool) | SetMagnetic(on: bool) | ReregisterHotkeys | ClearCache
    | OpenDialog(kind: DialogKind)
    | SettingsClosed | TranslateClosed(session: nat) | FileTransClosed(session: nat) | Close
    | CheckUpdate | ApplyUpdate | HookStop

  const MIN_MERGE_WINDOW_MS: nat := 100
  const MAX_MERGE_WINDOW_MS: nat := 5_000
  const MAX_SAVED_PROFILES: nat := 64
  const ACTION_BATCH_SIZE: nat := 32

  function AsciiLower(c: char): char {
    if 'A' <= c <= 'Z' then (c as int + 32) as char else c
  }

  predicate SameName(a: string, b: string) {
    |a| == |b| && forall i :: 0 <= i < |a| ==> AsciiLower(a[i]) == AsciiLower(b[i])
  }

  predicate SameGame(a: SavedHookProfile, b: SavedHookProfile) {
    (b.exeSha256.Some? && a.exeSha256 == b.exeSha256) || SameName(a.processName, b.processName)
  }

  function OtherGames(profiles: seq<SavedHookProfile>, profile: SavedHookProfile): (r: seq<SavedHookProfile>)
    ensures forall i :: 0 <= i < |r| ==> !SameGame(r[i], profile)
  {
    if profiles == [] then [] else
      (if SameGame(profiles[0], profile) then [] else [profiles[0]]) + OtherGames(profiles[1..], profile)
  }

  /** Exactly the profiles of other games stay, in their order. */
  lemma {:induction false} OtherGamesInOrder(profiles: seq<SavedHookProfile>, profile: SavedHookProfile)
    returns (at: seq<nat>)
    ensures |at| == |OtherGames(profiles, profile)|
    ensures forall i, j :: 0 <= i < j < |at| ==> at[i] < at[j]
    ensures forall i :: 0 <= i < |at| ==> at[i] < |profiles| && OtherGames(profiles, profile)[i] == profiles[at[i]]
    ensures forall k :: 0 <= k < |profiles| ==> (k in at <==> !SameGame(profiles[k], profile))
    decreases |profiles|
  {
    hide SameGame;
    at := [];
    if profiles != [] {
      var n := |profiles| - 1;
      at := OtherGamesInOrder(profiles[..n], profile);
      assert profiles == profiles[..n] + [profiles[n]];
      OtherGamesSnoc(profiles[..n], profiles[n], profile);
      assert forall k :: 0 <= k < n ==> profiles[..n][k] == profiles[k];
      if !SameGame(profiles[n], profile) {
        at := at + [n];
      }
    }
  }

  lemma {:induction false} OtherGamesSnoc(profiles: seq<SavedHookProfile>, last: SavedHookProfile,
                                          profile: SavedHookProfile)
    ensures OtherGames(profiles + [last], profile) == OtherGames(profiles, profile) + OtherGames([last], profile)
    decreases |profiles|
  {
    hide SameGame;
    if profiles == [] {
      assert [] + [last] == [last];
    } else {
      assert (profiles + [last])[1..] == profiles[1..] + [last];
      OtherGamesSnoc(profiles[1..], last, profile);
    }
  }

  /** The newest profile replaces the ones of the same game; the oldest give way. */
  function SaveProfile(profiles: seq<SavedHookProfile>, profile: SavedHookProfile): (r: seq<SavedHookProfile>)
    ensures IsSuffix(r, OtherGames(profiles, profile) + [profile])
    ensures |r| == Min(|OtherGames(profiles, profile)| + 1, 64)
    ensures r[|r| - 1] == profile && forall i :: 0 <= i < |r| - 1 ==> !SameGame(r[i], profile)
  {
    var all := OtherGames(profiles, profile) + [profile];
    if |all| > MAX_SAVED_PROFILES then all[|all| - MAX_SAVED_PROFILES..] else all
  }

  /** The draft, with the fields that the settings dialog does not edit. */
  function Merged(draft: Config, config: Config): Config {
    draft.(lastUpdateCheck := config.lastUpdateCheck, hook := config.hook, manual := config.manual,
           file := config.file, placement := config.placement)
  }

  function WithSizes(config: Config, size: int): Config {
    config.(translationSize := size, nameSize := size, originalSize := size)
  }

  function ReduceCommand(m: Model, command: Command): (Model, seq<Effect>) {
    var c := m.config;
    match command
    case WindowShow => (m.(config := c.(windowVisible := !c.windowVisible)), [SetWindowVisible(!c.windowVisible)])
    case ClickThrough => (m.(config := c.(clickThrough := !c.clickThrough)), [SetClickThrough(!c.clickThrough)])
    case ClipboardWatch =>
      if m.hookSession.Some? then (m, [])
      else (m.(config := c.(clipboardWatch := !c.clipboardWatch)), [SetClipboardWatch(!c.clipboardWatch)])
    case BackgroundToggle => (m.(config := c.(backgroundVisible := !c.backgroundVisible)), [Repaint])
    case BorderToggle => (m.(config := c.(borderVisible := !c.borderVisible)), [Repaint])
    case MagneticMode => (m.(config := c.(magneticMode := !c.magneticMode)), [SetMagnetic(!c.magneticMode)])
    case TextSizeUp => (m.(config := WithSizes(c, Min(c.translationSize + 1, 100))), [Repaint])
    case TextSizeDown => (m.(config := WithSizes(c, Max(c.translationSize - 1, 6))), [Repaint])
    case OpenCommand(kind) => (m, [OpenDialog(kind)])
    case HookStopCommand => (m, [HookStop])
    case Exit => (m, [Close])
  }

  function ReduceRoute(m: Model, route: TranslationRoute, selection: string): (Model, seq<Effect>) {
    var slot := if route.Manual? then m.config.manual else m.config.file;
    if slot == Some(selection) then (m, []) else
      (m.(config := if route.Manual? then m.config.(manual := Some(selection)) else m.config.(file := Some(selection))),
       [SaveConfig])
  }

  function Reduce(m: Model, action: Action): (Model, seq<Effect>) {
    match action
    case RunCommand(command) => ReduceCommand(m, command)
    case PreviewSettings(draft) =>
      (m.(config := Merged(draft, m.config).(hotkeys := m.config.hotkeys)), [SyncWindowState, Repaint])
    case CommitSettings(draft) =>
      (m.(config := Merged(draft, m.config)),
       [SyncWindowState, Repaint, SaveConfig] + (if m.config.hotkeys != draft.hotkeys then [ReregisterHotkeys] else []))
    case ClearBacklog => (m.(backlog := []), [])
    case ClearTranslationCache => (m, [ClearCache])
    case SetTranslationRoute(route, selection) => ReduceRoute(m, route, selection)
    case SaveHookProfile(hookName, hookCode) =>
      if m.hookSession.None? then (m, []) else
        var profile := SavedHookProfile(m.hookSession.value.processName, m.hookSession.value.exeSha256, hookName,
                                        hookCode);
        (m.(config := m.config.(hook := m.config.hook.(profiles := SaveProfile(m.config.hook.profiles, profile)))),
         [SaveConfig])
    case SetHookMergeWindow(windowMs) =>
      var clamped := Min(Max(windowMs, MIN_MERGE_WINDOW_MS), MAX_MERGE_WINDOW_MS);
      if m.config.hook.mergeWindowMs == clamped then (m, []) else
        (m.(config := m.config.(hook := m.config.hook.(mergeWindowMs := clamped)), mergerWindowMs := clamped),
         [SaveConfig])
    case SettingsDialogClosed => (m, [SettingsClosed])
    case TranslateDialogClosed(session) => (m, [TranslateClosed(session)])
    case FileTransDialogClosed(session) => (m, [FileTransClosed(session)])
    case UpdateCheckSettled(newLastCheck) =>
      if newLastCheck.None? then (m, [])
      else (m.(config := m.config.(lastUpdateCheck := newLastCheck.value)), [SaveConfig])
    case RequestUpdateCheck => (m, [CheckUpdate])
    case RequestUpdateApply => (m, [ApplyUpdate])
  }

  /** The model after applying every action in turn. */
  function Folded(m: Model, actions: seq<Action>): Model
    decreases |actions|
  {
    if actions == [] then m else Folded(Reduce(m, actions[0]).0, actions[1..])
  }

  lemma {:induction false} FoldedConcat(m: Model, a: seq<Action>, b: seq<Action>)
    ensures Folded(m, a + b) == Folded(Folded(m, a), b)
    decreases |a|
  {
    hide Reduce;
    if a == [] {
      assert a + b == b;
    } else {
      assert (a + b)[1..] == a[1..] + b;
      FoldedConcat(Reduce(m, a[0]).0, a[1..], b);
    }
  }

  lemma FoldedOne(m: Model, action: Action)
    ensures Folded(m, [action]) == Reduce(m, action).0
  {
    assert [action][1..] == [];
  }

  /** A preview leaves no trace once another preview follows. */
  lemma PreviewAbsorbs(m: Model, a: Config, b: Config)
    ensures Reduce(Reduce(m, PreviewSettings(a)).0, PreviewSettings(b)).0 == Reduce(m, PreviewSettings(b)).0
  {
  }

  /** Replacing a preview at the end of a list by the next one changes nothing. */
  lemma CoalesceAtBack(m: Model, actions: seq<Action>, a: Config, b: Config)
    ensures Folded(m, actions + [PreviewSettings(a)] + [PreviewSettings(b)]) ==
      Folded(m, actions + [PreviewSettings(b)])
  {
    hide Reduce, Folded;
    var n := Folded(m, actions);
    FoldedConcat(m, actions + [PreviewSettings(a)], [PreviewSettings(b)]);
    FoldedConcat(m, actions, [PreviewSettings(a)]);
    FoldedConcat(m, actions, [PreviewSettings(b)]);
    FoldedOne(n, PreviewSettings(a));
    FoldedOne(n, PreviewSettings(b));
    FoldedOne(Reduce(n, PreviewSettings(a)).0, PreviewSettings(b));
    PreviewAbsorbs(n, a, b);
  }

  /** Dropping a preview in front of another one changes nothing. */
  lemma CoalesceAtFront(m: Model, a: Config, rest: seq<Action>)
    requires rest != [] && rest[0].PreviewSettings?
    ensures Folded(m, [PreviewSettings(a)] + rest) == Folded(m, rest)
  {
    hide Reduce;
    assert ([PreviewSettings(a)] + rest)[1..] == rest;
    PreviewAbsorbs(m, a, rest[0].draft);
  }

  // ---- everything that changes the model ----

  /** An action that is handled, what an effect or a handler writes to the two settings that may be refused,
      the end of a window move, and the hook connection. */
  datatype Event =
    | Acted(action: Action)
    | SettingsWritten(clipboardWatch: bool, magneticMode: bool)
    | WindowMoved(placement: WindowPlacement)
    | Attached(target: HookTarget, exeSha256: Option<string>)
    | Detached

  function Occur(m: Model, event: Event): Model {
    match event
    case Acted(action) => Reduce(m, action).0
    case SettingsWritten(watch, magnetic) => m.(config := m.config.(clipboardWatch := watch, magneticMode := magnetic))
    case WindowMoved(placement) => m.(config := m.config.(placement := placement))
    case Attached(target, exeSha256) =>
      m.(hookSession := Some(HookSession(target.processName, exeSha256)),
         config := m.config.(hook := m.config.hook.(enabled := true, target := target)))
    case Detached => m.(hookSession := None)
  }

  function Run(m: Model, events: seq<Event>): Model
    decreases |events|
  {
    if events == [] then m else Run(Occur(m, events[0]), events[1..])
  }

  lemma {:induction false} RunConcat(m: Model, a: seq<Event>, b: seq<Event>)
    ensures Run(m, a + b) == Run(Run(m, a), b)
    decreases |a|
  {
    hide Occur;
    if a == [] {
      assert a + b == b;
    } else {
      assert (a + b)[1..] == a[1..] + b;
      RunConcat(Occur(m, a[0]), a[1..], b);
    }
  }

  lemma RunOne(m: Model, event: Event)
    ensures Run(m, [event]) == Occur(m, event)
  {
    hide Occur;
    assert [event][1..] == [];
  }

  function AllActed(actions: seq<Action>): seq<Event> {
    Map(a => Acted(a), actions)
  }

  /** The actions among the events, in order. */
  function Actions(events: seq<Event>): seq<Action> {
    if events == [] then [] else
      Actions(events[..|events| - 1]) + if events[|events| - 1].Acted? then [events[|events| - 1].action] else []
  }

  lemma {:induction false} ActionsConcat(a: seq<Event>, b: seq<Event>)
    ensures Actions(a + b) == Actions(a) + Actions(b)
    decreases |b|
  {
    if b == [] {
      assert a + b == a;
    } else {
      var n := |b| - 1;
      assert (a + b)[..|a| + n] == a + b[..n];
      ActionsConcat(a, b[..n]);
      Associate(Actions(a), Actions(b[..n]), if b[n].Acted? then [b[n].action] else []);
    }
  }

  lemma {:induction false} ActionsOfActed(actions: seq<Action>)
    ensures Actions(AllActed(actions)) == actions
    decreases |actions|
  {
    if actions != [] {
      var n := |actions| - 1;
      assert AllActed(actions)[..n] == AllActed(actions[..n]);
      ActionsOfActed(actions[..n]);
      assert actions == actions[..n] + [actions[n]];
    }
  }

  predicate NoActions(events: seq<Event>) {
    forall i :: 0 <= i < |events| ==> !events[i].Acted?
  }

  lemma {:induction false} NoActionsInside(events: seq<Event>)
    requires NoActions(events)
    ensures Actions(events) == []
    decreases |events|
  {
    if events != [] {
      NoActionsInside(events[..|events| - 1]);
    }
  }

  /** With nothing but actions, a run is the fold of the reducer. */
  lemma {:induction false} RunOfActions(m: Model, actions: seq<Action>)
    ensures Run(m, AllActed(actions)) == Folded(m, actions)
    decreases |actions|
  {
    hide Reduce;
    if actions != [] {
      assert AllActed(actions)[1..] == AllActed(actions[1..]);
      RunOfActions(Reduce(m, actions[0]).0, actions[1..]);
    }
  }

  // ---- the queue ----

  predicate AllPreviews(actions: seq<Action>) {
    forall i :: 0 <= i < |actions| ==> actions[i].PreviewSettings?
  }

  /** The submitted actions that one queued action stands for: itself, and the previews it superseded. */
  predicate StandsFor(action: Action, block: seq<Action>) {
    block != [] && block[|block| - 1] == action && (|block| > 1 ==> AllPreviews(block))
  }

  /** Superseded previews leave no trace in the reducer. */
  lemma {:induction false} BlockFolds(m: Model, action: Action, block: seq<Action>)
    requires StandsFor(action, block)
    ensures Folded(m, block) == Reduce(m, action).0
    decreases |block|
  {
    hide Reduce;
    if |block| == 1 {
      FoldedOne(m, action);
      assert block == [action];
    } else {
      assert block == [block[0]] + block[1..] && block[0] == PreviewSettings(block[0].draft);
      CoalesceAtFront(m, block[0].draft, block[1..]);
      BlockFolds(m, action, block[1..]);
    }
  }

  /** Actions on their way to the application; `posted` counts the notifications not delivered yet. */
  class AppActionSender {
    var queue: seq<Action>
    var posted: nat
    /** Every action that was ever submitted. */
    ghost var submitted: seq<Action>
    /** For every queued action, the submitted actions that it stands for. */
    ghost var blocks: seq<seq<Action>>

    ghost predicate Lined()
      reads this
    {
      |blocks| == |queue| && forall i :: 0 <= i < |queue| ==> StandsFor(queue[i], blocks[i])
    }

    constructor ()
      ensures queue == [] && posted == 0 && submitted == [] && blocks == []
    {
      queue, posted, submitted, blocks := [], 0, [], [];
    }

    method Send(action: Action)
      modifies this
      ensures old(Lined()) ==> Lined()
      ensures submitted == old(submitted) + [action] && Flatten(blocks) == Flatten(old(blocks)) + [action]
      ensures queue == old(queue) + [action] && posted == old(posted) + 1
    {
      FlattenSnoc(blocks, [action]);
      queue := queue + [action];
      posted := posted + 1;
      submitted, blocks := submitted + [action], blocks + [[action]];
    }

    /** A preview replaces a preview that is still the last action, without another notification. */
    method Preview(draft: Config)
      requires Lined()
      modifies this
      ensures Lined()
      ensures submitted == old(submitted) + [PreviewSettings(draft)]
      ensures Flatten(blocks) == Flatten(old(blocks)) + [PreviewSettings(draft)]
      ensures forall m: Model :: Folded(m, queue) == Folded(m, old(queue) + [PreviewSettings(draft)])
      ensures if old(queue) != [] && old(queue)[|old(queue)| - 1].PreviewSettings? then
                queue == old(queue)[..|old(queue)| - 1] + [PreviewSettings(draft)] && posted == old(posted)
              else queue == old(queue) + [PreviewSettings(draft)] && posted == old(posted) + 1
    {
      hide Folded, Reduce;
      ghost var before, held := queue, blocks;
      var last := |queue| - 1;
      if queue != [] && queue[last].PreviewSettings? {
        queue := queue[..last] + [PreviewSettings(draft)];
        assert before == before[..last] + [PreviewSettings(before[last].draft)];
        forall m: Model
          ensures Folded(m, queue) == Folded(m, before + [PreviewSettings(draft)])
        {
          CoalesceAtBack(m, before[..last], before[last].draft, draft);
        }
        blocks := held[..last] + [held[last] + [PreviewSettings(draft)]];
        LastBlockGrows(held, PreviewSettings(draft));
      } else {
        queue := queue + [PreviewSettings(draft)];
        posted := posted + 1;
        blocks := blocks + [[PreviewSettings(draft)]];
        FlattenSnoc(held, [PreviewSettings(draft)]);
      }
      submitted := submitted + [PreviewSettings(draft)];
    }
  }

  lemma LastBlockGrows(blocks: seq<seq<Action>>, action: Action)
    requires blocks != []
    ensures var last := |blocks| - 1;
      Flatten(blocks[..last] + [blocks[last] + [action]]) == Flatten(blocks) + [action]
  {
    hide Flatten;
    var before, last := blocks[..|blocks| - 1], blocks[|blocks| - 1];
    FlattenSnoc(before, last + [action]);
    FlattenSnoc(before, last);
    assert blocks == before + [last];
    Associate(Flatten(before), last, [action]);
  }

  /** Effects that may fail, and write the outcome to the settings. */
  predicate MayWrite(effect: Effect) {
    || effect.SyncWindowState? || effect.SetClipboardWatch? || effect.SetMagnetic? || effect.OpenDialog?
    || effect.SettingsClosed? || effect.TranslateClosed? || effect.FileTransClosed? || effect.HookStop?
  }

  /** `event` is something that one of the effects may write. */
  predicate WrittenBy(event: Event, effects: seq<Effect>) {
    || (event.Detached? && HookStop in effects)
    || (event.SettingsWritten? && exists i :: 0 <= i < |effects| && MayWrite(effects[i]))
  }

  class App {
    const sender: AppActionSender
    var model: Model
    /** The hotkeys registered with the system. */
    var registered: seq<int>
    ghost const start: Model
    /** Everything that has changed the model: all actions in the order in which they were submitted, each
        with what its effects wrote behind it, and what happened in between. */
    ghost var happened: seq<Event>

    /** The model is what all that leads to, and nothing that was submitted is lost, repeated or reordered. */
    ghost predicate Faithful()
      reads this, sender
    {
      && model == Run(start, happened) && sender.Lined()
      && sender.submitted == Actions(happened) + Flatten(sender.blocks)
    }

    constructor (model: Model)
      ensures this.model == start == model && fresh(sender) && sender.queue == [] && Faithful()
      ensures registered == model.config.hotkeys && WillBeWoken() && happened == []
    {
      this.model, start, registered, happened := model, model, model.config.hotkeys, [];
      sender := new AppActionSender();
    }

    /** Actions that wait have a notification that is on its way. */
    ghost predicate WillBeWoken()
      reads this, sender
    {
      sender.queue != [] ==> sender.posted > 0
    }

    method Send(action: Action)
      requires Faithful()
      modifies sender
      ensures Faithful()
      ensures WillBeWoken() && sender.queue == old(sender.queue) + [action]
      ensures sender.submitted == old(sender.submitted) + [action]
    {
      Associate(Actions(happened), Flatten(sender.blocks), [action]);
      sender.Send(action);
    }

    method Preview(draft: Config)
      requires Faithful()
      modifies sender
      ensures Faithful()
      ensures old(WillBeWoken()) ==> WillBeWoken()
      ensures sender.submitted == old(sender.submitted) + [PreviewSettings(draft)]
    {
      Associate(Actions(happened), Flatten(sender.blocks), [PreviewSettings(draft)]);
      sender.Preview(draft);
    }

    /** Dialogs may submit while the effects of an action run. */
    method OthersSubmit()
      requires Faithful()
      modifies sender
      ensures Faithful()
      ensures old(sender.submitted) <= sender.submitted
    {
      var count: nat :| count >= 0;
      for i := 0 to count
        invariant Faithful()
        invariant old(sender.submitted) <= sender.submitted
      {
        var preview: bool, draft: Config, action: Action := *, *, *;
        if preview {
          Preview(draft);
        } else {
          Send(action);
        }
      }
    }

    /** Takes the oldest action; of previews in a row only the last one. `block` are the submitted actions
        that it stands for. */
    method NextAction() returns (action: Option<Action>, ghost block: seq<Action>)
      requires sender.Lined()
      modifies sender`queue, sender`blocks
      ensures sender.Lined()
      ensures action.None? <==> old(sender.queue) == []
      ensures action.None? ==> sender.queue == [] && Flatten(sender.blocks) == Flatten(old(sender.blocks))
      ensures action.Some? ==>
        && StandsFor(action.value, block) && Flatten(old(sender.blocks)) == block + Flatten(sender.blocks)
        && |sender.queue| < |old(sender.queue)|
        && Folded(model, old(sender.queue)) == Folded(model, [action.value] + sender.queue)
        && (action.value.PreviewSettings? && sender.queue != [] ==> !sender.queue[0].PreviewSettings?)
    {
      hide Reduce, Folded;
      ghost var before := sender.queue;
      block := [];
      if sender.queue == [] {
        return None, block;
      }
      var first := sender.queue[0];
      sender.queue := sender.queue[1..];
      block, sender.blocks := sender.blocks[0], sender.blocks[1..];
      assert before == [first] + sender.queue;
      while first.PreviewSettings? && sender.queue != [] && sender.queue[0].PreviewSettings?
        invariant sender.Lined() && StandsFor(first, block) && |sender.queue| < |before|
        invariant Flatten(old(sender.blocks)) == block + Flatten(sender.blocks)
        invariant Folded(model, before) == Folded(model, [first] + sender.queue)
        decreases |sender.queue|
      {
        CoalesceAtFront(model, first.draft, sender.queue);
        BlocksJoin(first, block, sender.queue[0], sender.blocks[0]);
        Associate(block, sender.blocks[0], Flatten(sender.blocks[1..]));
        first := sender.queue[0];
        assert sender.queue == [first] + sender.queue[1..];
        sender.queue := sender.queue[1..];
        block, sender.blocks := block + sender.blocks[0], sender.blocks[1..];
      }
      action := Some(first);
    }

    /** Runs the effects of an action, any of which may be refused. */
    method RunEffects(effects: seq<Effect>) returns (ghost written: seq<Event>)
      modifies this`model, this`registered
      ensures model == Run(old(model), written) && NoActions(written)
        && model.config.hotkeys == old(model.config.hotkeys)
      ensures forall i :: 0 <= i < |written| ==> WrittenBy(written[i], effects)
      ensures registered == if ReregisterHotkeys in effects then model.config.hotkeys else old(registered)
    {
      written := [];
      for i := 0 to |effects|
        invariant model == Run(old(model), written) && NoActions(written)
          && model.config.hotkeys == old(model.config.hotkeys)
        invariant forall k :: 0 <= k < |written| ==> WrittenBy(written[k], effects)
        invariant registered == if ReregisterHotkeys in effects[..i] then model.config.hotkeys else old(registered)
      {
        ghost var more: seq<Event> := [];
        if effects[i].HookStop? {
          model := model.(hookSession := None);
          more := [Detached];
          RunOne(Run(old(model), written), Detached);
          RunConcat(old(model), written, more);
          written := written + more;
        }
        if MayWrite(effects[i]) {
          var watch: bool, magnetic: bool := *, *;
          model := model.(config := model.config.(clipboardWatch := watch, magneticMode := magnetic));
          more := [SettingsWritten(watch, magnetic)];
          RunOne(Run(old(model), written), more[0]);
          RunConcat(old(model), written, more);
          written := written + more;
        }
        if effects[i].ReregisterHotkeys? {
          registered := model.config.hotkeys;
        }
      }
      assert effects[..|effects|] == effects;
    }

    /** Applies an action to the model and runs its effects. */
    method Apply(action: Action) returns (ghost written: seq<Event>)
      modifies this`model, this`registered
      ensures model == Run(Reduce(old(model), action).0, written) && NoActions(written)
      ensures forall i :: 0 <= i < |written| ==> WrittenBy(written[i], Reduce(old(model), action).1)
      ensures old(registered == model.config.hotkeys) ==> registered == model.config.hotkeys
    {
      hide Reduce, Run;
      HotkeysFollow(model, action);
      var (next, effects) := Reduce(model, action);
      model := next;
      written := RunEffects(effects);
    }

    /** One delivered notification: at most 32 actions, and a new notification if some are left. If `quiet`,
        no dialog submits anything meanwhile. */
    method ProcessActions(quiet: bool)
      requires Faithful() && sender.posted > 0
      modifies this`model, this`registered, this`happened, sender
      ensures Faithful() && WillBeWoken() && old(happened) <= happened
      ensures old(registered == model.config.hotkeys) ==> registered == model.config.hotkeys
      ensures sender.queue == [] ==> sender.submitted == Actions(happened)
      ensures quiet ==>
        && sender.submitted == old(sender.submitted)
        && |sender.queue| <= Max(0, |old(sender.queue)| - 32)
    {
      hide Run;
      sender.posted := sender.posted - 1;
      for i := 0 to ACTION_BATCH_SIZE
        invariant Faithful() && old(happened) <= happened
        invariant old(registered == model.config.hotkeys) ==> registered == model.config.hotkeys
        invariant quiet ==>
          && sender.submitted == old(sender.submitted)
          && |sender.queue| <= Max(0, |old(sender.queue)| - i)
      {
        var more := ProcessOne();
        if !more {
          break;
        }
        if !quiet {
          OthersSubmit();
        }
      }
      if sender.queue != [] {
        sender.posted := sender.posted + 1;
      }
    }

    /** Takes and applies one action. */
    method ProcessOne() returns (more: bool)
      requires Faithful()
      modifies this`model, this`registered, this`happened, sender`queue, sender`blocks
      ensures Faithful() && old(happened) <= happened
      ensures old(registered == model.config.hotkeys) ==> registered == model.config.hotkeys
      ensures more <==> old(sender.queue) != []
      ensures if more then |sender.queue| < |old(sender.queue)| else sender.queue == []
    {
      hide Run, Reduce, Folded;
      var action, block := NextAction();
      more := action.Some?;
      if more {
        ghost var before := model;
        var written := Apply(action.value);
        happened := happened + (AllActed(block) + written);
        BlockHappened(start, old(happened), action.value, block, written, Flatten(sender.blocks));
      }
    }

    /** Something else that changes the model. */
    method Happen(event: Event)
      requires Faithful() && !event.Acted?
      modifies this`model, this`happened
      ensures Faithful() && happened == old(happened) + [event]
      ensures model.config.hotkeys == old(model.config.hotkeys)
    {
      hide Run;
      RunConcat(start, happened, [event]);
      RunOne(model, event);
      ActionsConcat(happened, [event]);
      NoActionsInside([event]);
      model := Occur(model, event);
      happened := happened + [event];
    }

    /** Any run of submissions, deliveries and other events: the model is always what they lead to, and
        actions that wait are always going to be delivered. */
    method RunTurns(turns: seq<Turn>)
      requires Faithful() && WillBeWoken() && registered == model.config.hotkeys
      modifies this`model, this`registered, this`happened, sender
      ensures Faithful() && WillBeWoken() && registered == model.config.hotkeys
    {
      for i := 0 to |turns|
        invariant Faithful() && WillBeWoken() && registered == model.config.hotkeys
      {
        match turns[i] {
          case Submits(action) => Send(action);
          case Shows(draft) => Preview(draft);
          case Delivers =>
            if sender.posted > 0 {
              ProcessActions(false);
            }
          case Happens(event) =>
            if !event.Acted? {
              Happen(event);
            }
        }
      }
    }

    /** Once nothing more is submitted, the notifications on their way empty the queue. */
    method DeliverAll() returns (deliveries: nat)
      requires Faithful() && WillBeWoken()
      modifies this`model, this`registered, this`happened, sender
      ensures Faithful() && sender.queue == [] && sender.submitted == old(sender.submitted) == Actions(happened)
      ensures 32 * deliveries < |old(sender.queue)| + 32
    {
      hide Run;
      deliveries := 0;
      while sender.queue != []
        invariant Faithful() && WillBeWoken() && sender.submitted == old(sender.submitted)
        invariant sender.queue != [] ==> 32 * deliveries + |sender.queue| <= |old(sender.queue)|
        invariant 32 * deliveries < |old(sender.queue)| + 32
        decreases |sender.queue|
      {
        ProcessActions(true);
        deliveries := deliveries + 1;
      }
      assert Flatten(sender.blocks) == [];
    }
  }

  datatype Turn = Submits(action: Action) | Shows(draft: Config) | Delivers | Happens(event: Event)

  lemma BlocksJoin(a: Action, block: seq<Action>, b: Action, next: seq<Action>)
    requires StandsFor(a, block) && StandsFor(b, next) && a.PreviewSettings? && b.PreviewSettings?
    ensures StandsFor(b, block + next)
  {
    assert AllPreviews(block) && AllPreviews(next);
  }

  lemma BlockHappened(start: Model, happened: seq<Event>, action: Action, block: seq<Action>, written: seq<Event>,
                      waiting: seq<Action>)
    requires StandsFor(action, block) && NoActions(written)
    ensures Run(start, happened + (AllActed(block) + written)) == Run(Reduce(Run(start, happened), action).0, written)
    ensures Actions(happened) + (block + waiting) == Actions(happened + (AllActed(block) + written)) + waiting
  {
    hide Run, Reduce, Folded, Actions;
    var m := Run(start, happened);
    RunConcat(start, happened, AllActed(block) + written);
    RunConcat(m, AllActed(block), written);
    RunOfActions(m, block);
    BlockFolds(m, action, block);
    ActionsConcat(happened, AllActed(block) + written);
    ActionsConcat(AllActed(block), written);
    ActionsOfActed(block);
    NoActionsInside(written);
    assert block + [] == block;
    Associate(Actions(happened), block, waiting);
  }

  // ---- what the reducer keeps ----

  /** Commands and route choices touch none of the fields that others rely on. */
  lemma CommandKeeps(m: Model, command: Command)
    ensures var r := ReduceCommand(m, command);
      && ReregisterHotkeys !in r.1 && r.0.mergerWindowMs == m.mergerWindowMs
      && r.0.config.hotkeys == m.config.hotkeys && r.0.config.lastUpdateCheck == m.config.lastUpdateCheck
      && r.0.config.manual == m.config.manual && r.0.config.file == m.config.file
      && r.0.config.placement == m.config.placement && r.0.config.hook == m.config.hook
      && r.0.backlog == m.backlog && r.0.hookSession == m.hookSession
  {
  }

  lemma RouteKeeps(m: Model, route: TranslationRoute, selection: string)
    ensures var r := ReduceRoute(m, route, selection);
      && ReregisterHotkeys !in r.1 && r.0.mergerWindowMs == m.mergerWindowMs
      && r.0.config.hotkeys == m.config.hotkeys && r.0.config.lastUpdateCheck == m.config.lastUpdateCheck
      && r.0.config.manual == (if route.Manual? then Some(selection) else m.config.manual)
      && r.0.config.file == (if route.File? then Some(selection) else m.config.file)
      && r.0.config.placement == m.config.placement && r.0.config.hook == m.config.hook
      && r.0.backlog == m.backlog && r.0.hookSession == m.hookSession
  {
  }

  /** Hotkeys are registered again exactly when they change. */
  lemma HotkeysFollow(m: Model, action: Action)
    ensures ReregisterHotkeys in Reduce(m, action).1 <==> Reduce(m, action).0.config.hotkeys != m.config.hotkeys
  {
    hide ReduceCommand, ReduceRoute, SaveProfile;
    match action {
      case RunCommand(command) => CommandKeeps(m, command);
      case SetTranslationRoute(route, selection) => RouteKeeps(m, route, selection);
      case _ =>
    }
  }

  lemma {:induction false} PreviewsKeepHotkeys(m: Model, previews: seq<Action>)
    requires AllPreviews(previews)
    ensures Folded(m, previews).config.hotkeys == m.config.hotkeys
    decreases |previews|
  {
    if previews != [] {
      PreviewsKeepHotkeys(Reduce(m, previews[0]).0, previews[1..]);
    }
  }

  /** A commit after any number of previews compares with the hotkeys from before them. */
  lemma CommitAfterPreviews(m: Model, previews: seq<Action>, draft: Config)
    requires AllPreviews(previews)
    ensures ReregisterHotkeys in Reduce(Folded(m, previews), CommitSettings(draft)).1 <==>
      draft.hotkeys != m.config.hotkeys
  {
    PreviewsKeepHotkeys(m, previews);
    hide Folded;
  }

  // ---- drafts and everything else that happens ----

  predicate IsDraft(event: Event) {
    event.Acted? && (event.action.PreviewSettings? || event.action.CommitSettings?)
  }

  function WithoutDrafts(events: seq<Event>): seq<Event> {
    if events == [] then [] else (if IsDraft(events[0]) then [] else [events[0]]) + WithoutDrafts(events[1..])
  }

  /** What the settings dialog does not edit. */
  datatype Protected = Protected(
    lastUpdateCheck: int, hook: HookConfig, manual: Option<string>, file: Option<string>, placement: WindowPlacement,
    backlog: seq<string>, hookSession: Option<HookSession>, mergerWindowMs: nat)

  function ProtectedPart(m: Model): Protected {
    Protected(m.config.lastUpdateCheck, m.config.hook, m.config.manual, m.config.file, m.config.placement, m.backlog,
              m.hookSession, m.mergerWindowMs)
  }

  /** Drafts are snapshots from when the dialog was opened; all that happens since then has the effect it
      would have without them. */
  lemma {:induction false} DraftsOverwriteNothing(m: Model, n: Model, events: seq<Event>)
    requires ProtectedPart(m) == ProtectedPart(n)
    ensures ProtectedPart(Run(m, events)) == ProtectedPart(Run(n, WithoutDrafts(events)))
    decreases |events|
  {
    if events != [] {
      var rest := WithoutDrafts(events[1..]);
      hide Reduce;
      if IsDraft(events[0]) {
        DraftKeeps(m, events[0].action);
        assert [] + rest == rest;
        DraftsOverwriteNothing(Occur(m, events[0]), n, events[1..]);
      } else {
        OthersAgree(m, n, events[0]);
        assert ([events[0]] + rest)[1..] == rest;
        DraftsOverwriteNothing(Occur(m, events[0]), Occur(n, events[0]), events[1..]);
      }
    }
  }

  lemma DraftKeeps(m: Model, action: Action)
    requires action.PreviewSettings? || action.CommitSettings?
    ensures ProtectedPart(Reduce(m, action).0) == ProtectedPart(m)
  {
  }

  lemma OthersAgree(m: Model, n: Model, event: Event)
    requires ProtectedPart(m) == ProtectedPart(n) && !IsDraft(event)
    ensures ProtectedPart(Occur(m, event)) == ProtectedPart(Occur(n, event))
  {
    hide ReduceCommand, ReduceRoute, SaveProfile;
    if event.Acted? {
      match event.action {
        case RunCommand(command) =>
          CommandKeeps(m, command);
          CommandKeeps(n, command);
        case SetTranslationRoute(route, selection) =>
          RouteKeeps(m, route, selection);
          RouteKeeps(n, route, selection);
        case _ =>
      }
    }
  }

  /** The merging of hooked text always works with the window that the configuration names. */
  lemma {:induction false} MergerFollowsConfig(m: Model, events: seq<Event>)
    requires m.mergerWindowMs == m.config.hook.mergeWindowMs
    ensures Run(m, events).mergerWindowMs == Run(m, events).config.hook.mergeWindowMs
    decreases |events|
  {
    if events != [] {
      MergerStep(m, events[0]);
      hide Occur;
      MergerFollowsConfig(Occur(m, events[0]), events[1..]);
    }
  }

  lemma MergerStep(m: Model, event: Event)
    requires m.mergerWindowMs == m.config.hook.mergeWindowMs
    ensures Occur(m, event).mergerWindowMs == Occur(m, event).config.hook.mergeWindowMs
  {
    hide Reduce;
    if event.Acted? {
      ActionKeepsMerger(m, event.action);
    }
  }

  lemma ActionKeepsMerger(m: Model, action: Action)
    requires m.mergerWindowMs == m.config.hook.mergeWindowMs
    ensures Reduce(m, action).0.mergerWindowMs == Reduce(m, action).0.config.hook.mergeWindowMs
  {
    hide ReduceCommand, ReduceRoute, SaveProfile;
    match action {
      case RunCommand(command) => CommandKeeps(m, command);
      case SetTranslationRoute(route, selection) => RouteKeeps(m, route, selection);
      case _ =>
    }
  }
}
