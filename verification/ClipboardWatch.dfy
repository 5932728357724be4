/** When the application listens to the clipboard: six overlapping reasons to pause, and session tokens. */
module ClipboardWatch {
  import opened Prelude

  const U64_MAX: nat := 0xffff_ffff_ffff_ffff

  type Token = n: nat | n <= U64_MAX

  // ---- session tokens ----

  /** The token to hand out and the next value of the counter; zero means "no session". */
  function AdvancePauseSessionCounter(current: Token): (r: (Token, Token)) {
    var next := (current + 1) % (U64_MAX + 1);
    (current, if next == 0 then 1 else next)
  }

  /** The counter after `n` tokens, starting from one. */
  function CounterAfter(n: nat): Token {
    if n == 0 then 1 else AdvancePauseSessionCounter(CounterAfter(n - 1)).1
  }

  lemma {:induction false} CounterIsCyclic(n: nat)
    ensures CounterAfter(n) == n % U64_MAX + 1
  {
    hide AdvancePauseSessionCounter;
    if n > 0 {
      CounterIsCyclic(n - 1);
      NextRemainder(n - 1);
      AdvanceSkipsZero(CounterAfter(n - 1));
    }
  }

  lemma AdvanceSkipsZero(current: Token)
    ensures AdvancePauseSessionCounter(current) == (current, if current == U64_MAX then 1 else current + 1)
  {
  }

  lemma NextRemainder(n: nat)
    ensures (n + 1) % U64_MAX == if n % U64_MAX == U64_MAX - 1 then 0 else n % U64_MAX + 1
  {
    var q, r := n / U64_MAX, n % U64_MAX;
    if r == U64_MAX - 1 {
      SameRemainder(q + 1, 0);
    } else {
      SameRemainder(q, r + 1);
    }
  }

  /** Tokens are never zero, and two of them are equal only a full cycle of 2^64 - 1 apart. */
  lemma TokensAreDistinct(m: nat, n: nat)
    ensures CounterAfter(m) != 0
    ensures CounterAfter(m) == CounterAfter(n) <==> m % 0xffff_ffff_ffff_ffff == n % 0xffff_ffff_ffff_ffff
    ensures m < n < m + 0xffff_ffff_ffff_ffff ==> CounterAfter(m) != CounterAfter(n)
  {
    CounterIsCyclic(m);
    CounterIsCyclic(n);
    if m < n < m + U64_MAX {
      LessThanACycle(m, n);
    }
  }

  lemma LessThanACycle(m: nat, n: nat)
    requires m < n < m + U64_MAX
    ensures m % U64_MAX != n % U64_MAX
  {
    var d := n - m;
    assert n == U64_MAX * (m / U64_MAX) + (m % U64_MAX + d);
    if m % U64_MAX + d < U64_MAX {
      SameRemainder(m / U64_MAX, m % U64_MAX + d);
    } else {
      assert n == U64_MAX * (m / U64_MAX + 1) + (m % U64_MAX + d - U64_MAX);
      SameRemainder(m / U64_MAX + 1, m % U64_MAX + d - U64_MAX);
    }
  }

  lemma SameRemainder(q: nat, r: nat)
    requires r < U64_MAX
    ensures (U64_MAX * q + r) % U64_MAX == r
  {
  }

  // ---- the application ----

  /** The clipboard listener. If it is `reliable`, registering and unregistering never fail. */
  class ClipboardWatcher {
    const reliable: bool
    var watching: bool

    constructor (reliable: bool)
      ensures this.reliable == reliable && !watching
    {
      this.reliable, watching := reliable, false;
    }

    method Start() returns (ok: bool)
      modifies this
      ensures watching == (old(watching) || ok) && (old(watching) || reliable ==> ok)
    {
      ok := *;
      ok := ok || watching || reliable;
      watching := watching || ok;
    }

    method Stop() returns (ok: bool)
      modifies this
      ensures watching == (old(watching) && !ok) && (!old(watching) || reliable ==> ok)
    {
      ok := *;
      ok := ok || !watching || reliable;
      watching := watching && !ok;
    }
  }

  /** The two dialogs that carry a session token. */
  datatype SessionDialog = TranslateDialog | FileTransDialog

  /** What a destroyed dialog leaves in the action queue. */
  datatype Close = SettingsClosed | SessionClosed(dialog: SessionDialog, session: Token)

  /** `shows` is whether a new window could be created. */
  datatype Command =
    | ToggleClipboardWatch | ToggleMagnetic | OpenSettings(shows: bool) | OpenDialog(dialog: SessionDialog, shows: bool)
    | HookStop | OtherCommand

  /** Everything that can happen to the clipboard policy after start-up. */
  datatype Event =
    | Ran(command: Command)
    | MenuShown(chosen: Option<Command>)
    | SettingsApplied(watch: bool, magnetic: bool)
    | TargetSelected(attaches: bool)
    | NoticeTimer
    | HookAttached
    | HookDetached
    | DialogDestroyed(dialog: SessionDialog)
    | SettingsDestroyed
    | CloseHandled

  datatype OverlayNotice = SelectMagneticTarget | MagneticTargetAttached

  /** The part of the configuration that is dealt with here. */
  datatype Settings = Settings(clipboardWatch: bool, magneticMode: bool)

  /** What a draft acts on: the setting, the magnetic hook and whether it has a target, the listener, the
      notice, the other reasons to pause, and whether a translation waits for its delay or its answer. */
  datatype Policy = Policy(
    clipboardWatch: bool, magnetic: bool, attached: bool, watching: bool, notice: Option<OverlayNotice>,
    otherwisePaused: bool, pending: bool)

  /** The notice that belongs to a magnetic mode which was just switched. */
  function FreshNotice(magnetic: bool): Option<OverlayNotice> {
    if magnetic then Some(SelectMagneticTarget) else None
  }

  /** The policy after a draft took effect and nothing failed. A magnetic hook that is installed again has
      no target, and its notice, like every stop of the listener, cancels the translation that waits. */
  function Previewed(p: Policy, watch: bool, magneticWanted: bool): Policy {
    var switches := magneticWanted != p.magnetic;
    var notice := if switches then FreshNotice(magneticWanted) else p.notice;
    var watching := watch && notice.None? && !p.otherwisePaused;
    Policy(watch, magneticWanted, p.attached && !switches, watching, notice, p.otherwisePaused,
           p.pending && !(switches && magneticWanted) && (p.watching ==> watching))
  }

  class App {
    const clipboard: ClipboardWatcher
    /** The magnetic hook can always be installed. */
    const magneticStarts: bool
    var clipboardWatch: bool
    var magneticMode: bool
    var magnetic: bool
    /** The magnetic hook has a target. */
    var attached: bool
    /** A translation waits for its delay or its answer. */
    var pending: bool
    /** What a handler below asked to save last. */
    var saved: Option<Settings>
    // reasons to pause
    var sessions: map<SessionDialog, Token>
    var settingsActive: bool
    var menuActive: bool
    var notice: Option<OverlayNotice>
    var hookSession: bool
    var nextSession: Token
    // the windows of the dialogs: open ones, those whose state is borrowed by a running handler,
    // and the close actions that were queued but not handled yet
    var windows: map<SessionDialog, Token>
    var settingsWindow: bool
    var busy: set<SessionDialog>
    var closes: seq<Close>
    /** History: a close of an earlier settings dialog was handled since the open one was last shown. */
    ghost var orphaned: bool

    ghost predicate OtherReason()
      reads this
    {
      sessions != map[] || settingsActive || menuActive || notice.Some?
    }

    ghost predicate Paused()
      reads this
    {
      OtherReason() || hookSession
    }

    /** The listener runs exactly when the user wants it and nothing pauses it. */
    ghost predicate Synced()
      reads this, clipboard
    {
      clipboard.watching <==> clipboardWatch && !Paused()
    }

    /** The same, except that a listener which could not be stopped may go on while a game is hooked. */
    ghost predicate NearlySynced()
      reads this, clipboard
    {
      && (clipboard.watching ==> clipboardWatch && !OtherReason())
      && (clipboardWatch && !Paused() ==> clipboard.watching)
    }

    ghost function CurrentSettings(): Settings
      reads this
    {
      Settings(clipboardWatch, magneticMode)
    }

    ghost function CurrentPolicy(): Policy
      reads this, clipboard
    {
      Policy(clipboardWatch, magnetic, attached, clipboard.watching, notice,
             sessions != map[] || settingsActive || menuActive || hookSession, pending)
    }

    /** Tokens and windows agree: an open dialog holds its pause, and a pause without a window is
        about to be released by a queued action. */
    ghost predicate SessionsMatch()
      reads this`windows, this`sessions, this`closes
    {
      && (forall d :: d in windows ==>
            d in sessions && sessions[d] == windows[d] && SessionClosed(d, windows[d]) !in closes)
      && (forall d :: d in sessions ==> d in windows || SessionClosed(d, sessions[d]) in closes)
    }

    /** An open settings dialog holds its pause unless a late close has taken it away. */
    ghost predicate SettingsAccounted()
      reads this
    {
      settingsWindow ==> (settingsActive <==> !orphaned)
    }

    /** A pause by a settings dialog that is gone is about to be released. */
    ghost predicate SettingsReleased()
      reads this`settingsActive, this`settingsWindow, this`closes
    {
      settingsActive && !settingsWindow ==> SettingsClosed in closes
    }

    /** The next token is not in use. */
    ghost predicate FreshToken(dialog: SessionDialog)
      reads this`windows, this`closes, this`nextSession
    {
      SessionClosed(dialog, nextSession) !in closes && (dialog in windows ==> windows[dialog] != nextSession)
    }

    /** No open dialog is busy, and the next token is not in use. */
    ghost predicate Calm()
      reads this`windows, this`closes, this`nextSession, this`busy
    {
      forall d: SessionDialog :: !(d in busy && d in windows) && FreshToken(d)
    }

    twostate predicate KeepsSync()
      reads this, clipboard
    {
      (old(Synced()) ==> Synced()) && (old(NearlySynced()) ==> NearlySynced())
    }

    /** Every token in use was issued before the next one. */
    ghost predicate TokensBelow()
      reads this`windows, this`closes, this`nextSession
    {
      && (forall d :: d in windows ==> windows[d] < nextSession)
      && (forall i :: 0 <= i < |closes| && closes[i].SessionClosed? ==> closes[i].session < nextSession)
    }

    /** At most one token is issued; until the counter wraps, tokens stay in order. */
    twostate predicate KeepsOrder()
      reads this
    {
      old(TokensBelow() && nextSession < U64_MAX) ==> TokensBelow() && nextSession <= old(nextSession) + 1
    }

    /** What every handler keeps. */
    twostate predicate Keeps()
      reads this, clipboard
    {
      && (old(Synced()) && clipboard.reliable ==> Synced())
      && (old(Synced() && SessionsMatch()) ==> Synced())
      && (old(NearlySynced() && SessionsMatch()) ==> NearlySynced())
      && (old(SessionsMatch() && Calm()) ==> SessionsMatch())
    }

    constructor (clipboard: ClipboardWatcher, clipboardWatch: bool, magneticMode: bool, magneticStarts: bool)
      ensures this.clipboard == clipboard && this.magneticStarts == magneticStarts && fresh(this)
      ensures this.clipboardWatch == clipboardWatch && this.magneticMode == magneticMode && !magnetic && !attached
      ensures !pending && saved.None?
      ensures !Paused() && SessionsMatch() && SettingsAccounted() && SettingsReleased()
      ensures nextSession == 1 && closes == [] && windows == map[] && !settingsWindow && busy == {}
    {
      this.clipboard, this.clipboardWatch, this.magneticMode, magnetic :=
        clipboard, clipboardWatch, magneticMode, false;
      this.magneticStarts, attached, pending, saved := magneticStarts, false, false, None;
      sessions, settingsActive, menuActive, notice, hookSession := map[], false, false, None, false;
      nextSession, windows, settingsWindow, busy, closes, orphaned := 1, map[], false, {}, [], false;
    }

    method ClipboardCapturePaused() returns (paused: bool)
      ensures paused <==> Paused()
    {
      paused := TranslateDialog in sessions || FileTransDialog in sessions || settingsActive || menuActive
        || notice.Some? || hookSession;
      if TranslateDialog !in sessions && FileTransDialog !in sessions {
        forall d: SessionDialog
          ensures d !in sessions
        {
          assert d == TranslateDialog || d == FileTransDialog;
        }
        assert sessions == map[];
      }
    }

    method PauseClipboardCapture() returns (ok: bool)
      modifies this`pending, clipboard
      ensures clipboard.watching == (old(clipboard.watching) && !ok)
      ensures !old(clipboard.watching) || clipboard.reliable ==> ok
      ensures pending == (old(pending) && !ok)
    {
      ok := true;
      if clipboard.watching {
        ok := clipboard.Stop();
      }
      pending := pending && !ok;
    }

    /** Resumes when the last reason is gone; otherwise nothing changes. */
    method ResumeClipboardCapture()
      modifies clipboard, this`clipboardWatch
      ensures if Paused() || !old(clipboardWatch) || old(clipboard.watching) then
                clipboard.watching == old(clipboard.watching) && clipboardWatch == old(clipboardWatch)
              else clipboard.watching == clipboardWatch && (clipboard.reliable ==> clipboardWatch)
    {
      var paused := ClipboardCapturePaused();
      if paused || !clipboardWatch || clipboard.watching {
        return;
      }
      var ok := clipboard.Start();
      if !ok {
        clipboardWatch := false;
      }
    }

    /** A listener that runs only without a reason to pause keeps doing so. */
    twostate predicate KeepsQuiet()
      reads this, clipboard
    {
      && (old(clipboard.watching ==> !OtherReason()) ==> clipboard.watching ==> !OtherReason())
      && (old(clipboard.watching ==> !Paused()) ==> clipboard.watching ==> !Paused())
    }

    /** A listener that was started is wanted, and nothing pauses it. */
    twostate predicate StartsRightly()
      reads this, clipboard
    {
      clipboard.watching && !old(clipboard.watching) ==> clipboardWatch && !Paused()
    }

    // ---- overlay notices and magnetic mode ----

    method ShowOverlayNotice(shown: OverlayNotice) returns (ok: bool)
      modifies this`notice, this`clipboardWatch, this`pending, clipboard
      ensures Keeps() && KeepsQuiet()
      ensures ok ==> (notice == Some(shown) && !clipboard.watching) || (notice.None? && shown == MagneticTargetAttached)
      ensures !ok ==> notice.None? && clipboard.watching && old(clipboard.watching) && !clipboard.reliable
      ensures clipboard.reliable ==> clipboardWatch == old(clipboardWatch)
      ensures pending == (old(pending) && !ok)
    {
      notice := Some(shown);
      ok := PauseClipboardCapture();
      if !ok {
        notice := None;
        return;
      }
      var timer: bool := *;
      if shown == MagneticTargetAttached && !timer {
        ClearOverlayNotice();
      }
    }

    method ClearOverlayNotice()
      modifies this`notice, this`clipboardWatch, clipboard
      ensures Keeps() && KeepsQuiet() && notice.None?
      ensures old(notice).None? ==>
        clipboard.watching == old(clipboard.watching) && clipboardWatch == old(clipboardWatch)
      ensures (old(clipboard.watching) ==> clipboard.watching) && StartsRightly()
      ensures old(notice).Some? && !Paused() && old(clipboardWatch) ==> clipboard.watching == clipboardWatch
      ensures clipboard.reliable ==> clipboardWatch == old(clipboardWatch)
    {
      if notice.None? {
        return;
      }
      notice := None;
      ResumeClipboardCapture();
    }

    method SetMagneticEnabled(enabled: bool) returns (ok: bool)
      modifies this`clipboardWatch, this`magneticMode, this`magnetic, this`attached, this`notice, this`pending,
               clipboard
      ensures Keeps() && KeepsQuiet()
      ensures magneticMode == magnetic && (ok <==> magnetic == enabled)
      ensures if magnetic == old(magnetic) then
                ok ==> notice == old(notice) && clipboard.watching == old(clipboard.watching)
              else notice == if enabled then Some(SelectMagneticTarget) else None
      ensures clipboard.reliable ==> clipboardWatch == old(clipboardWatch)
      ensures clipboard.reliable && magneticStarts ==> ok
      ensures (attached ==> old(attached)) && (ok ==> attached == (old(attached) && magnetic == old(magnetic)))
      ensures pending == (old(pending) && !(magnetic && !old(magnetic)))
      ensures ((magnetic ==> old(magnetic)) && old(clipboard.watching) ==> clipboard.watching) && StartsRightly()
    {
      hide SessionsMatch, Calm;
      ok := true;
      if enabled == magnetic {
        magneticMode := enabled;
      } else if enabled {
        ok := InstallMagnetic();
      } else {
        DropMagnetic();
      }
    }

    method InstallMagnetic() returns (ok: bool)
      requires !magnetic
      modifies this`clipboardWatch, this`magneticMode, this`magnetic, this`attached, this`notice, this`pending,
               clipboard
      ensures Keeps() && KeepsQuiet() && StartsRightly()
      ensures ok == magnetic == magneticMode && (attached ==> old(attached)) && (ok ==> !attached)
      ensures ok ==> notice == Some(SelectMagneticTarget)
      ensures clipboard.reliable ==> clipboardWatch == old(clipboardWatch)
      ensures clipboard.reliable && magneticStarts ==> ok
      ensures pending == (old(pending) && !ok)
      ensures !ok && old(clipboard.watching) ==> clipboard.watching
    {
      hide SessionsMatch, Calm;
      var started: bool := *;
      if !started && !magneticStarts {
        magneticMode := false;
        return false;
      }
      magnetic, attached, magneticMode := true, false, true;
      ok := ShowOverlayNotice(SelectMagneticTarget);
      if !ok {
        magnetic, attached, magneticMode := false, false, false;
      }
    }

    method ApplyMagneticRequest(enabled: bool)
      modifies this`clipboardWatch, this`magneticMode, this`magnetic, this`attached, this`notice, this`pending,
               this`saved, clipboard
      ensures Keeps() && magneticMode == magnetic
      ensures clipboard.reliable ==> clipboardWatch == old(clipboardWatch)
      ensures saved == Some(CurrentSettings())
      ensures clipboard.reliable && magneticStarts ==> magnetic == enabled
    {
      var _ := SetMagneticEnabled(enabled);
      saved := Some(Settings(clipboardWatch, magneticMode));
    }

    /** `attaches` is whether the hook can be attached to the window that was selected. */
    method HandleMagneticTargetSelected(attaches: bool)
      modifies this`clipboardWatch, this`magneticMode, this`magnetic, this`attached, this`notice, this`pending,
               this`saved, clipboard
      ensures Keeps()
      ensures !old(magneticMode) ==>
        notice == old(notice) && magnetic == old(magnetic) && clipboard.watching == old(clipboard.watching)
      ensures !old(magneticMode) ==> magneticMode == old(magneticMode) && attached == old(attached)
      ensures old(magneticMode) && !magnetic ==> !magneticMode && notice.None?
      ensures saved == if old(magneticMode) then Some(CurrentSettings()) else old(saved)
      ensures old(magneticMode) ==> attached == magnetic && (magnetic ==> old(magnetic) && attaches)
      ensures old(magneticMode && magnetic) && attaches && clipboard.reliable ==> attached
      ensures old(magneticMode) && magnetic ==> magneticMode && (notice == Some(MagneticTargetAttached) || notice.None?)
      ensures clipboard.reliable ==> clipboardWatch == old(clipboardWatch)
    {
      hide SessionsMatch, Calm;
      if !magneticMode {
        return;
      }
      attached := magnetic && attaches;
      if attached {
        attached := ShowOverlayNotice(MagneticTargetAttached);
      }
      if !attached {
        DropMagnetic();
      }
      saved := Some(Settings(clipboardWatch, magneticMode));
    }

    method DropMagnetic()
      modifies this`clipboardWatch, this`magneticMode, this`magnetic, this`attached, this`notice, clipboard
      ensures Keeps() && KeepsQuiet() && StartsRightly() && (old(clipboard.watching) ==> clipboard.watching)
      ensures !magnetic && !magneticMode && !attached && notice.None?
      ensures clipboard.reliable ==> clipboardWatch == old(clipboardWatch)
    {
      hide SessionsMatch, Calm;
      magnetic, attached, magneticMode := false, false, false;
      ClearOverlayNotice();
    }

    method HandleMagneticNoticeTimer()
      modifies this`clipboardWatch, this`notice, clipboard
      ensures Keeps() && notice.None?
      ensures clipboard.reliable ==> clipboardWatch == old(clipboardWatch)
    {
      ClearOverlayNotice();
    }

    // ---- configuration ----

    /** Turns the recorded policy into action after the configuration was replaced. */
    method SyncWindowState()
      modifies this`clipboardWatch, this`magneticMode, this`magnetic, this`attached, this`notice, this`pending,
               this`saved, clipboard
      ensures old(clipboard.watching ==> !OtherReason()) ==> NearlySynced()
      ensures old(clipboard.watching ==> !Paused()) ==> Synced()
      ensures old(clipboard.watching ==> !OtherReason()) && clipboard.reliable ==> Synced()
      ensures magneticMode == magnetic
      ensures clipboard.reliable ==> clipboardWatch == old(clipboardWatch)
      ensures clipboard.reliable && magneticStarts ==>
        CurrentPolicy() == Previewed(old(CurrentPolicy()), old(clipboardWatch), old(magneticMode))
      ensures pending ==
        (old(pending) && !(magnetic && !old(magnetic)) && (old(clipboard.watching) ==> clipboard.watching))
      ensures if old(magneticMode) == magnetic == old(magnetic) then saved == old(saved)
              else saved.Some? && saved.value.magneticMode == magneticMode
                   && (clipboard.reliable ==> saved.value.clipboardWatch == clipboardWatch)
    {
      hide SessionsMatch, Calm;
      var wanted, before := magneticMode, magnetic;
      var _ := SetMagneticEnabled(magneticMode);
      if before != magnetic || wanted != magneticMode {
        saved := Some(Settings(clipboardWatch, magneticMode));
      }
      SyncListener();
    }

    method SyncListener()
      modifies this`clipboardWatch, this`pending, clipboard
      ensures old(clipboard.watching ==> !OtherReason()) ==> NearlySynced()
      ensures old(clipboard.watching ==> !Paused()) ==> Synced()
      ensures clipboard.reliable ==> Synced() && clipboardWatch == old(clipboardWatch)
      ensures old(clipboardWatch && !Paused() && clipboard.watching) ==> clipboard.watching
      ensures pending == (old(pending) && (old(clipboard.watching) ==> clipboard.watching))
    {
      var paused := ClipboardCapturePaused();
      var watch := clipboardWatch && !paused;
      if watch && !clipboard.watching {
        var ok := clipboard.Start();
        if !ok {
          clipboardWatch := false;
        }
      } else if !watch && clipboard.watching {
        var ok := clipboard.Stop();
        if ok {
          pending := false;
        } else {
          clipboardWatch := true;
        }
      }
    }

    /** A preview or a commit of the settings dialog: the draft replaces the configuration. */
    method ApplySettings(watch: bool, magneticWanted: bool)
      modifies this`clipboardWatch, this`magneticMode, this`magnetic, this`attached, this`notice, this`pending,
               this`saved, clipboard
      ensures Keeps() && magneticMode == magnetic && (clipboard.reliable ==> clipboardWatch == watch)
      ensures clipboard.reliable && magneticStarts ==>
        && CurrentPolicy() == Previewed(old(CurrentPolicy()), watch, magneticWanted)
        && saved == if magneticWanted != old(magnetic) then Some(Settings(watch, magneticWanted)) else old(saved)
    {
      hide SessionsMatch, Calm;
      clipboardWatch, magneticMode := watch, magneticWanted;
      SyncWindowState();
    }

    method ApplyClipboardWatch(enabled: bool)
      modifies this`clipboardWatch, this`pending, clipboard
      ensures if enabled && !Paused() then
                clipboardWatch == clipboard.watching && (clipboard.reliable ==> clipboard.watching)
              else if clipboard.watching then
                old(clipboard.watching) && !clipboard.reliable && clipboardWatch == !enabled
              else clipboardWatch == enabled
      ensures pending == (old(pending) && (enabled || clipboardWatch))
    {
      var paused := ClipboardCapturePaused();
      var ok;
      if enabled && !paused {
        ok := clipboard.Start();
      } else {
        ok := clipboard.Stop();
      }
      clipboardWatch := if ok then enabled else !enabled;
      pending := pending && (enabled || !ok);
    }

    /** The first synchronization after the window was created. */
    method StartRuntime()
      modifies this`clipboardWatch, this`magneticMode, this`magnetic, this`attached, this`notice, this`pending,
               this`saved, clipboard
      ensures old(!Paused() && !clipboard.watching) ==> Synced()
      ensures clipboard.reliable ==> clipboardWatch == old(clipboardWatch)
      ensures clipboard.reliable && magneticStarts ==> magnetic == magneticMode == old(magneticMode)
    {
      if clipboardWatch {
        var ok := clipboard.Start();
        if !ok {
          clipboardWatch := false;
        }
      }
      SyncWindowState();
    }

    // ---- game hooking ----

    /** The only handler that goes on when the listener cannot be stopped. */
    method HandleHookAttached() returns (stopped: bool)
      modifies this`hookSession, this`pending, this`saved, clipboard
      ensures hookSession && clipboard.watching == (old(clipboard.watching) && !stopped)
      ensures !old(clipboard.watching) || clipboard.reliable ==> stopped
      ensures old(NearlySynced()) ==> NearlySynced()
      ensures old(Synced()) ==> (Synced() <==> stopped)
      ensures old(Synced() && !clipboard.watching) ==> Synced()
      ensures saved == Some(Settings(clipboardWatch, magneticMode)) && pending == (old(pending) && !stopped)
    {
      hookSession := true;
      stopped := PauseClipboardCapture();
      saved := Some(Settings(clipboardWatch, magneticMode));
    }

    method HandleHookDetached()
      modifies this`hookSession, this`clipboardWatch, clipboard
      ensures Keeps() && !hookSession
      ensures old(NearlySynced()) ==> Synced()
      ensures clipboard.reliable ==> clipboardWatch == old(clipboardWatch)
    {
      hookSession := false;
      ResumeClipboardCapture();
    }

    method StopHookSession()
      modifies this`hookSession, this`clipboardWatch, clipboard
      ensures Keeps() && !hookSession
      ensures old(NearlySynced()) ==> Synced()
      ensures clipboard.reliable ==> clipboardWatch == old(clipboardWatch)
    {
      if !hookSession {
        return;
      }
      hookSession := false;
      ResumeClipboardCapture();
    }

    // ---- dialogs ----

    /** `shows` is whether a new dialog could be created; an open one is only activated. */
    method OpenSettingsDialog(shows: bool)
      modifies this`settingsActive, this`settingsWindow, this`orphaned, this`clipboardWatch, this`pending, clipboard
      ensures KeepsSync()
      ensures settingsActive ==> settingsWindow && !clipboard.watching && !pending
      ensures !settingsActive ==> settingsWindow == old(settingsWindow)
      ensures old(settingsWindow) ==> settingsWindow
      ensures clipboard.reliable || !old(clipboard.watching) ==> (settingsActive <==> old(settingsWindow) || shows)
      ensures old(SettingsAccounted() && (clipboard.watching ==> !OtherReason())) ==> SettingsAccounted()
      ensures clipboard.reliable ==> clipboardWatch == old(clipboardWatch)
    {
      settingsActive := true;
      var ok := PauseClipboardCapture();
      if !ok {
        settingsActive := false;
        return;
      }
      if settingsWindow || shows {
        settingsWindow, orphaned := true, false;
      } else {
        settingsActive := false;
        ResumeClipboardCapture();
      }
    }

    method HandleSettingsDialogClosed()
      modifies this`settingsActive, this`orphaned, this`clipboardWatch, clipboard
      ensures KeepsSync() && !settingsActive && orphaned == settingsWindow
      ensures clipboard.reliable ==> clipboardWatch == old(clipboardWatch)
    {
      settingsActive, orphaned := false, settingsWindow;
      ResumeClipboardCapture();
    }

    /** The dialog's own token, unless there is no dialog or its state is borrowed at the moment. */
    method CurrentSession(dialog: SessionDialog) returns (session: Option<Token>)
      ensures session == if dialog in windows && dialog !in busy then Some(windows[dialog]) else None
    {
      session := if dialog in windows && dialog !in busy then Some(windows[dialog]) else None;
    }

    /** Activates the dialog that is open, or creates one with the given token. */
    method ShowDialog(dialog: SessionDialog, session: Token, shows: bool) returns (ok: bool)
      modifies this`windows
      ensures old(dialog in windows) ==> ok && windows == old(windows)
      ensures old(dialog !in windows) ==>
        ok == shows && windows == if ok then old(windows)[dialog := session] else old(windows)
    {
      ok := shows || dialog in windows;
      if dialog !in windows && ok {
        windows := windows[dialog := session];
      }
    }

    /** The dialog was created with a new session while the listener is off, or there is neither. */
    ghost predicate Opened(dialog: SessionDialog, before: map<SessionDialog, Token>, held: map<SessionDialog, Token>,
                           token: Token)
      reads this, clipboard
    {
      if dialog in windows then
        windows == before[dialog := token] && sessions == held[dialog := token] && !clipboard.watching && !pending
      else windows == before && sessions == held - {dialog}
    }

    /** `shows` is whether a new dialog could be created. */
    method OpenSessionDialog(dialog: SessionDialog, shows: bool)
      modifies this`sessions, this`windows, this`nextSession, this`clipboardWatch, this`pending, clipboard
      ensures KeepsOrder()
      ensures Keeps()
      ensures old(SessionsMatch() && FreshToken(dialog)) ==>
        (SessionsMatch() <==> !old(dialog in windows && dialog in busy))
      ensures old(dialog in windows) ==> windows == old(windows)
      ensures old(dialog in windows && dialog !in busy) ==> sessions == old(sessions)[dialog := windows[dialog]]
      ensures old(dialog in windows && dialog in busy) && clipboard.reliable ==>
        sessions == old(sessions)[dialog := old(nextSession)] && !clipboard.watching
      ensures old(dialog !in windows) ==> Opened(dialog, old(windows), old(sessions), old(nextSession))
      ensures old(dialog !in windows) && clipboard.reliable ==> (dialog in windows <==> shows)
      ensures clipboard.reliable ==> clipboardWatch == old(clipboardWatch)
    {
      var current := CurrentSession(dialog);
      if current.Some? {
        ReopenSession(dialog, current.value, shows);
      } else {
        OpenNewSession(dialog, shows);
      }
    }

    method ReopenSession(dialog: SessionDialog, session: Token, shows: bool)
      requires dialog in windows && windows[dialog] == session && dialog !in busy
      modifies this`sessions, this`windows, this`pending, clipboard
      ensures KeepsOrder()
      ensures Keeps() && windows == old(windows) && sessions == old(sessions)[dialog := session]
      ensures old(SessionsMatch()) ==> SessionsMatch() && sessions == old(sessions)
    {
      sessions := sessions[dialog := session];
      assert dialog in sessions;
      var paused := PauseClipboardCapture();
      if paused {
        var _ := ShowDialog(dialog, session, shows);
      }
    }

    method OpenNewSession(dialog: SessionDialog, shows: bool)
      modifies this`sessions, this`windows, this`nextSession, this`clipboardWatch, this`pending, clipboard
      ensures KeepsOrder()
      ensures KeepsSync()
      ensures old(dialog in windows) ==>
        && windows == old(windows)
        && (sessions == old(sessions) - {dialog} || sessions == old(sessions)[dialog := old(nextSession)])
      ensures old(dialog in windows) && clipboard.reliable ==>
        sessions == old(sessions)[dialog := old(nextSession)] && !clipboard.watching
      ensures old(dialog !in windows) ==> Opened(dialog, old(windows), old(sessions), old(nextSession))
      ensures old(dialog !in windows) && clipboard.reliable ==> (dialog in windows <==> shows)
      ensures clipboard.reliable ==> clipboardWatch == old(clipboardWatch)
    {
      ghost var before := sessions;
      sessions := sessions - {dialog};
      var ok := PauseClipboardCapture();
      if !ok {
        return;
      }
      var session := nextSession;
      nextSession := AdvancePauseSessionCounter(nextSession).1;
      sessions := sessions[dialog := session];
      assert sessions == before[dialog := session];
      ok := ShowDialog(dialog, session, shows);
      if !ok {
        sessions := sessions - {dialog};
        assert sessions == before - {dialog};
        ResumeClipboardCapture();
      }
    }

    /** A token that is not the live one has no effect at all. */
    method HandleSessionDialogClosed(dialog: SessionDialog, session: Token)
      modifies this`sessions, this`clipboardWatch, clipboard
      ensures KeepsSync()
      ensures if old(dialog in sessions && sessions[dialog] == session) then sessions == old(sessions) - {dialog}
              else
                && sessions == old(sessions) && clipboardWatch == old(clipboardWatch)
                && clipboard.watching == old(clipboard.watching)
      ensures clipboard.reliable ==> clipboardWatch == old(clipboardWatch)
    {
      if dialog !in sessions || sessions[dialog] != session {
        return;
      }
      sessions := sessions - {dialog};
      ResumeClipboardCapture();
    }

    // ---- what happens around the handlers ----

    /** A dialog window is destroyed; its close action is only queued. */
    method DestroyDialog(dialog: SessionDialog)
      requires dialog in windows
      modifies this`windows, this`busy, this`closes
      ensures KeepsOrder()
      ensures Keeps() && (old(SessionsMatch()) ==> SessionsMatch())
      ensures windows == old(windows) - {dialog} && busy == old(busy) - {dialog}
      ensures closes == old(closes) + [SessionClosed(dialog, old(windows[dialog]))]
    {
      closes := closes + [SessionClosed(dialog, windows[dialog])];
      windows, busy := windows - {dialog}, busy - {dialog};
    }

    method DestroySettingsDialog()
      requires settingsWindow
      modifies this`settingsWindow, this`orphaned, this`closes
      ensures KeepsOrder()
      ensures Keeps() && (old(SessionsMatch()) ==> SessionsMatch())
      ensures !settingsWindow && closes == old(closes) + [SettingsClosed]
    {
      closes := closes + [SettingsClosed];
      settingsWindow, orphaned := false, false;
    }

    method SetBusy(dialog: SessionDialog, isBusy: bool)
      modifies this`busy
      ensures Keeps() && busy == if isBusy then old(busy) + {dialog} else old(busy) - {dialog}
    {
      busy := if isBusy then busy + {dialog} else busy - {dialog};
    }

    /** Handles the oldest queued close action. */
    method ProcessClose()
      requires closes != []
      modifies this`closes, this`sessions, this`settingsActive, this`orphaned, this`clipboardWatch, clipboard
      ensures KeepsOrder()
      ensures Keeps() && (old(SessionsMatch()) ==> SessionsMatch())
      ensures CloseDone()
      ensures old(settingsWindow ==> settingsActive) ==>
        ((settingsWindow ==> settingsActive) <==> !(old(closes[0]).SettingsClosed? && old(settingsWindow)))
      ensures old(SettingsAccounted()) ==> SettingsAccounted()
      ensures clipboard.reliable ==> clipboardWatch == old(clipboardWatch)
    {
      var close := closes[0];
      closes := closes[1..];
      match close {
        case SettingsClosed => HandleSettingsDialogClosed();
        case SessionClosed(dialog, session) => HandleSessionDialogClosed(dialog, session);
      }
    }

    /** The oldest close is handled: the settings dialog loses its pause, and the session of the named dialog
        ends if the token is the live one. */
    twostate predicate CloseDone()
      requires old(closes) != []
      reads this
    {
      && closes == old(closes)[1..]
      && match old(closes)[0]
         case SettingsClosed => !settingsActive && sessions == old(sessions)
         case SessionClosed(dialog, token) =>
           && settingsActive == old(settingsActive)
           && sessions == if dialog in old(sessions) && old(sessions)[dialog] == token then old(sessions) - {dialog}
                          else old(sessions)
    }

    twostate predicate SameDialogs()
      reads this
    {
      && sessions == old(sessions) && windows == old(windows) && nextSession == old(nextSession)
      && settingsActive == old(settingsActive) && settingsWindow == old(settingsWindow)
    }

    twostate predicate SameMagnetic()
      reads this
    {
      && magneticMode == old(magneticMode) && magnetic == old(magnetic)
      && attached == old(attached) && notice == old(notice)
    }

    /** What a command does, and what it leaves alone. */
    twostate predicate CommandDone(command: Command)
      reads this, clipboard
    {
      && closes == old(closes) && busy == old(busy)
      && (command.HookStop? || hookSession == old(hookSession))
      && (command.ToggleMagnetic? || SameMagnetic())
      && (command.OpenSettings? || command.OpenDialog? || SameDialogs())
      && (command.ToggleClipboardWatch? || !clipboard.reliable || clipboardWatch == old(clipboardWatch))
      && match command
         case ToggleClipboardWatch =>
           if old(hookSession) then clipboardWatch == old(clipboardWatch)
           else clipboard.reliable ==> clipboardWatch == !old(clipboardWatch)
         case ToggleMagnetic =>
           && magneticMode == magnetic
           && (clipboard.reliable && magneticStarts ==> magnetic == !old(magneticMode))
         case OpenSettings(shows) =>
           && sessions == old(sessions) && windows == old(windows) && (old(settingsWindow) ==> settingsWindow)
           && (clipboard.reliable ==>
                 (settingsActive <==> settingsWindow) && (settingsWindow <==> old(settingsWindow) || shows))
         case OpenDialog(dialog, shows) =>
           && (dialog !in old(windows) && clipboard.reliable ==> (dialog in windows <==> shows))
           && settingsActive == old(settingsActive) && settingsWindow == old(settingsWindow)
           && (dialog !in old(windows) ==> Opened(dialog, old(windows), old(sessions), old(nextSession)))
           && (dialog in old(windows) ==> windows == old(windows))
           && (dialog in old(windows) && dialog !in old(busy) ==> sessions == old(sessions)[dialog := windows[dialog]])
         case HookStop => !hookSession
         case OtherCommand => true
    }

    /** The reducer and its effects for one command. */
    method RunCommand(command: Command)
      modifies this, clipboard
      ensures KeepsOrder()
      ensures Keeps() && CommandDone(command) && menuActive == old(menuActive) && busy == old(busy)
      ensures old(SettingsReleased()) ==> SettingsReleased()
      ensures old(SettingsAccounted() && (clipboard.watching ==> !OtherReason())) ==> SettingsAccounted()
    {
      hide SessionsMatch, Calm, TokensBelow, FreshToken;
      match command {
        case ToggleClipboardWatch =>
          if !hookSession {
            clipboardWatch := !clipboardWatch;
            ApplyClipboardWatch(clipboardWatch);
          }
        case ToggleMagnetic =>
          magneticMode := !magneticMode;
          ApplyMagneticRequest(magneticMode);
        case OpenSettings(shows) => OpenSettingsDialog(shows);
        case OpenDialog(dialog, shows) => OpenSessionDialog(dialog, shows);
        case HookStop => StopHookSession();
        case OtherCommand =>
      }
    }

    /** The menu is a reason of its own, and the chosen command runs while it holds. Nothing is chosen if the
        menu cannot be built. */
    method ShowContextMenu(chosen: Option<Command>)
      modifies this, clipboard
      ensures KeepsOrder()
      ensures Keeps() && !menuActive && closes == old(closes) && busy == old(busy)
      ensures if chosen.Some? then clipboard.reliable ==> CommandDone(chosen.value)
              else SameDialogs() && SameMagnetic() && hookSession == old(hookSession)
      ensures old(SettingsReleased()) ==> SettingsReleased()
      ensures old(SettingsAccounted() && (clipboard.watching ==> !OtherReason())) ==> SettingsAccounted()
    {
      hide SessionsMatch, Calm, TokensBelow;
      menuActive := true;
      var ok := PauseClipboardCapture();
      if !ok {
        menuActive := false;
        return;
      }
      if chosen.Some? {
        RunInMenu(chosen.value);
      } else {
        menuActive := false;
        ResumeClipboardCapture();
      }
    }

    method RunInMenu(command: Command)
      requires menuActive && !clipboard.watching
      modifies this, clipboard
      ensures KeepsOrder()
      ensures Keeps() && !menuActive && closes == old(closes) && busy == old(busy)
      ensures clipboard.reliable ==> CommandDone(command)
      ensures old(SettingsReleased()) ==> SettingsReleased()
      ensures old(SettingsAccounted()) ==> SettingsAccounted()
    {
      hide SessionsMatch, Calm, TokensBelow;
      RunCommand(command);
      assert command.OpenDialog? && command.dialog in sessions ==> OtherReason();
      menuActive := false;
      ResumeClipboardCapture();
    }

    /** A clipboard notification: text is taken only while nothing pauses the capture, even if the
        listener could not be stopped. */
    method HandleClipboardChange() returns (captures: bool)
      modifies this`pending
      ensures captures <==> clipboardWatch && clipboard.watching && !Paused()
      ensures !captures ==> pending == old(pending)
    {
      var paused := ClipboardCapturePaused();
      captures := clipboardWatch && clipboard.watching && !paused;
      if captures {
        // the text may be unchanged, need no translation, or be scheduled
        pending := *;
      }
    }

    /** What an event does, and what it leaves alone. */
    twostate predicate EventDone(event: Event)
      reads this, clipboard
    {
      match event
      case Ran(command) => CommandDone(command)
      case MenuShown(chosen) =>
        && closes == old(closes) && !menuActive
        && if chosen.Some? then clipboard.reliable ==> CommandDone(chosen.value)
           else SameDialogs() && SameMagnetic() && hookSession == old(hookSession)
      case SettingsApplied(watch, magneticWanted) =>
        && closes == old(closes) && SameDialogs() && hookSession == old(hookSession) && magneticMode == magnetic
        && (clipboard.reliable ==> clipboardWatch == watch)
        && (clipboard.reliable && magneticStarts ==> magnetic == magneticWanted)
      case TargetSelected(attaches) =>
        && closes == old(closes) && SameDialogs() && hookSession == old(hookSession)
        && (if old(magneticMode) then attached == magnetic == magneticMode else SameMagnetic())
        && (old(magneticMode && magnetic) && clipboard.reliable ==> (attached <==> attaches))
      case NoticeTimer =>
        && closes == old(closes) && SameDialogs() && hookSession == old(hookSession) && notice.None?
        && magnetic == old(magnetic) && (clipboard.reliable ==> clipboardWatch == old(clipboardWatch))
      case HookAttached =>
        && closes == old(closes) && SameDialogs() && SameMagnetic() && hookSession
        && clipboardWatch == old(clipboardWatch)
      case HookDetached =>
        && closes == old(closes) && SameDialogs() && SameMagnetic() && !hookSession
        && (clipboard.reliable ==> clipboardWatch == old(clipboardWatch))
      case DialogDestroyed(dialog) =>
        && sessions == old(sessions) && settingsActive == old(settingsActive) && SameMagnetic()
        && settingsWindow == old(settingsWindow) && windows == old(windows) - {dialog}
        && closes == old(closes) + if dialog in old(windows) then [SessionClosed(dialog, old(windows)[dialog])] else []
      case SettingsDestroyed =>
        && sessions == old(sessions) && settingsActive == old(settingsActive) && SameMagnetic()
        && windows == old(windows) && !settingsWindow
        && closes == old(closes) + if old(settingsWindow) then [SettingsClosed] else []
      case CloseHandled =>
        && windows == old(windows) && settingsWindow == old(settingsWindow) && SameMagnetic()
        && hookSession == old(hookSession) && menuActive == old(menuActive)
        && (clipboard.reliable ==> clipboardWatch == old(clipboardWatch))
        && if old(closes) == [] then closes == [] && sessions == old(sessions) && settingsActive == old(settingsActive)
           else CloseDone()
    }

    method HandleEvent(event: Event)
      modifies this, clipboard
      ensures EventDone(event)
      ensures old(SettingsReleased()) ==> SettingsReleased()
      ensures IsClosing(event) ==>
        && (old(SessionsMatch()) ==> SessionsMatch())
        && hookSession == old(hookSession) && menuActive == old(menuActive)
        && (clipboard.reliable ==> clipboardWatch == old(clipboardWatch))
      ensures old(Synced()) && clipboard.reliable ==> Synced()
      ensures old(NearlySynced() && SessionsMatch()) ==> NearlySynced()
      ensures old(SessionsMatch() && Calm()) ==> SessionsMatch()
      ensures old(SettingsAccounted() && (clipboard.watching ==> !OtherReason())) ==> SettingsAccounted()
      ensures KeepsOrder()
      ensures busy <= old(busy)
    {
      hide SessionsMatch, Calm, TokensBelow, CommandDone;
      match event {
        case Ran(command) => RunCommand(command);
        case MenuShown(chosen) => ShowContextMenu(chosen);
        case SettingsApplied(watch, magneticWanted) => ApplySettings(watch, magneticWanted);
        case TargetSelected(attaches) => HandleMagneticTargetSelected(attaches);
        case NoticeTimer => HandleMagneticNoticeTimer();
        case HookAttached =>
          var _ := HandleHookAttached();
        case HookDetached => HandleHookDetached();
        case _ => HandleClosing(event);
      }
    }

    predicate IsClosing(event: Event) {
      event.DialogDestroyed? || event.SettingsDestroyed? || event.CloseHandled?
    }

    /** The events of dialogs that go away. */
    method HandleClosing(event: Event)
      requires IsClosing(event)
      modifies this`windows, this`busy, this`closes, this`settingsWindow, this`orphaned, this`sessions,
               this`settingsActive, this`clipboardWatch, clipboard
      ensures EventDone(event)
      ensures old(SettingsReleased()) ==> SettingsReleased()
      ensures (old(SessionsMatch()) ==> SessionsMatch()) && Keeps()
      ensures clipboard.reliable ==> clipboardWatch == old(clipboardWatch)
      ensures old(SettingsAccounted() && (clipboard.watching ==> !OtherReason())) ==> SettingsAccounted()
      ensures KeepsOrder() && busy <= old(busy)
    {
      hide SessionsMatch, Calm, TokensBelow;
      match event {
        case DialogDestroyed(dialog) =>
          if dialog in windows {
            DestroyDialog(dialog);
          }
        case SettingsDestroyed =>
          if settingsWindow {
            DestroySettingsDialog();
          }
        case CloseHandled =>
          if closes != [] {
            ProcessClose();
          }
      }
    }

    /** Over any run with a listener that can be started and stopped: it runs exactly when it should. */
    method Run(events: seq<Event>)
      modifies this, clipboard
      ensures old(Synced()) && clipboard.reliable ==> Synced()
      ensures old(Synced() && SettingsAccounted()) && clipboard.reliable ==> SettingsAccounted()
      ensures old(SettingsReleased()) ==> SettingsReleased()
    {
      for i := 0 to |events|
        invariant old(Synced()) && clipboard.reliable ==> Synced()
        invariant old(Synced() && SettingsAccounted()) && clipboard.reliable ==> SettingsAccounted()
        invariant old(SettingsReleased()) ==> SettingsReleased()
      {
        HandleEvent(events[i]);
      }
    }

    /** Over any run, whatever fails, as long as no open dialog is busy: an open dialog keeps its pause,
        a dialog that is gone loses it, and the listener runs when it should or a game is hooked. */
    method RunWithFailures(events: seq<Event>)
      requires busy == {} && TokensBelow() && nextSession + |events| < U64_MAX
      requires SessionsMatch() && NearlySynced() && SettingsAccounted() && SettingsReleased()
      modifies this, clipboard
      ensures SessionsMatch() && NearlySynced() && SettingsAccounted() && SettingsReleased()
    {
      for i := 0 to |events|
        invariant busy == {} && TokensBelow() && nextSession + |events| - i < U64_MAX
        invariant SessionsMatch() && NearlySynced() && SettingsAccounted() && SettingsReleased()
      {
        OrderIsFresh();
        HandleEvent(events[i]);
      }
    }

    lemma OrderIsFresh()
      requires busy == {} && TokensBelow()
      ensures Calm()
    {
    }

    /** All windows are destroyed and all waiting closes handled: every session has ended, no dialog pauses the
        capture any more, and a listener that can be started runs if it is wanted and nothing else pauses it. */
    method CloseEverything()
      requires SessionsMatch() && SettingsReleased()
      modifies this, clipboard
      ensures closes == [] && windows == map[] && sessions == map[] && !settingsWindow && !settingsActive
      ensures menuActive == old(menuActive) && notice == old(notice) && hookSession == old(hookSession)
      ensures old(Synced()) && clipboard.reliable ==>
        && clipboardWatch == old(clipboardWatch)
        && (clipboard.watching <==> clipboardWatch && !menuActive && notice.None? && !hookSession)
    {
      hide SessionsMatch, Calm, TokensBelow, FreshToken, CommandDone;
      HandleEvent(DialogDestroyed(TranslateDialog));
      HandleEvent(DialogDestroyed(FileTransDialog));
      HandleEvent(SettingsDestroyed);
      NoWindows();
      var count := |closes|;
      for i := 0 to count
        invariant SessionsMatch() && SettingsReleased() && windows == map[] && !settingsWindow
        invariant |closes| == count - i
        invariant menuActive == old(menuActive) && notice == old(notice) && hookSession == old(hookSession)
        invariant old(Synced()) && clipboard.reliable ==> Synced() && clipboardWatch == old(clipboardWatch)
      {
        HandleEvent(CloseHandled);
      }
      QuietMeansResumed();
    }

    lemma NoWindows()
      requires TranslateDialog !in windows && FileTransDialog !in windows
      ensures windows == map[]
    {
      forall d: SessionDialog
        ensures d !in windows
      {
        assert d == TranslateDialog || d == FileTransDialog;
      }
    }

    /** Nothing stays paused by dialogs that are gone, once their close actions are handled. */
    lemma QuietMeansResumed()
      requires SessionsMatch() && closes == [] && windows == map[]
      ensures sessions == map[]
    {
    }
  }

  // ---- runs that end in a wrong state ----

  /** A dialog that is asked for again while it is busy gets a token it does not have: its close is
      then ignored, and the capture stays paused with no dialog left. */
  method LeakedPause(app: App, dialog: SessionDialog)
    requires app.SessionsMatch() && app.FreshToken(dialog) && app.clipboard.reliable
    requires app.windows.Keys == {dialog} && dialog in app.busy && app.closes == []
    modifies app, app.clipboard
    ensures app.closes == [] && app.windows == map[] && dialog in app.sessions && !app.clipboard.watching
  {
    app.OpenSessionDialog(dialog, true);
    app.SetBusy(dialog, false);
    app.DestroyDialog(dialog);
    assert app.sessions[dialog] != app.closes[0].session;
    app.ProcessClose();
    assert app.closes == [];
  }

  /** The settings dialog has no token: a close that is handled after the dialog was opened again
      takes away the pause of the open dialog. */
  method StaleSettingsClose(app: App)
    requires app.clipboard.reliable && app.Synced() && app.settingsActive && app.settingsWindow && app.closes == []
    modifies app, app.clipboard
    ensures app.settingsWindow && !app.settingsActive && app.closes == [] && app.Synced()
    ensures old(app.clipboardWatch && app.sessions == map[] && !app.menuActive && app.notice.None? && !app.hookSession)
      ==> app.clipboard.watching
  {
    app.DestroySettingsDialog();
    app.OpenSettingsDialog(true);
    app.ProcessClose();
  }
}
