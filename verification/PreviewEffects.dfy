/** What is lost when superseded previews are skipped: their effects on the listener, the magnetic hook, the
    waiting translation and the saved configuration. */
module PreviewEffects {
  import opened Prelude
  import opened ActionQueue
  import Clipboard = ClipboardWatch

  /** The model, what its effects act on, and the configuration that was last handed to be saved. */
  datatype Desk = Desk(model: Model, policy: Clipboard.Policy, saved: Option<Config>)

  /** The configuration that a preview leads to. */
  function Shown(m: Model, draft: Config): Config {
    Reduce(m, PreviewSettings(draft)).0.config
  }

  /** One preview with its effects, of which none fails. The configuration is saved if the magnetic hook
      was installed or removed. */
  function AfterPreview(s: Desk, draft: Config): Desk {
    Desk(Reduce(s.model, PreviewSettings(draft)).0,
         Clipboard.Previewed(s.policy, draft.clipboardWatch, draft.magneticMode),
         if draft.magneticMode != s.policy.magnetic then Some(Shown(s.model, draft)) else s.saved)
  }

  function AfterPreviews(s: Desk, drafts: seq<Config>): Desk
    decreases |drafts|
  {
    if drafts == [] then s else AfterPreview(AfterPreviews(s, drafts[..|drafts| - 1]), drafts[|drafts| - 1])
  }

  lemma AfterSnoc(s: Desk, drafts: seq<Config>, next: Config)
    ensures AfterPreviews(s, drafts + [next]) == AfterPreview(AfterPreviews(s, drafts), next)
  {
    assert (drafts + [next])[..|drafts|] == drafts;
  }

  // ---- the model ----

  lemma {:induction false} ModelAfter(s: Desk, drafts: seq<Config>, next: Config)
    ensures Reduce(AfterPreviews(s, drafts).model, PreviewSettings(next)).0 == Reduce(s.model, PreviewSettings(next)).0
    decreases |drafts|
  {
    if drafts != [] {
      var n := |drafts| - 1;
      PreviewAbsorbs(AfterPreviews(s, drafts[..n]).model, drafts[n], next);
      hide Reduce;
      ModelAfter(s, drafts[..n], next);
    }
  }

  // ---- the magnetic hook and what is saved ----

  function MagneticAfter(magnetic: bool, drafts: seq<Config>): bool {
    if drafts == [] then magnetic else drafts[|drafts| - 1].magneticMode
  }

  /** The last draft that switches the magnetic mode. */
  function LastSwitch(magnetic: bool, drafts: seq<Config>): Option<Config>
    decreases |drafts|
  {
    if drafts == [] then None else
      var before, last := drafts[..|drafts| - 1], drafts[|drafts| - 1];
      if last.magneticMode != MagneticAfter(magnetic, before) then Some(last) else LastSwitch(magnetic, before)
  }

  /** Some draft switches the magnetic mode, whether or not a later one switches it back. */
  predicate Switched(magnetic: bool, drafts: seq<Config>) {
    exists i :: 0 <= i < |drafts| && drafts[i].magneticMode != magnetic
  }

  lemma SwitchedSnoc(magnetic: bool, drafts: seq<Config>, last: Config)
    ensures Switched(magnetic, drafts + [last]) <==> Switched(magnetic, drafts) || last.magneticMode != magnetic
  {
    assert forall i :: 0 <= i < |drafts| ==> (drafts + [last])[i] == drafts[i];
    assert (drafts + [last])[|drafts|] == last;
  }

  lemma {:induction false} SwitchAfter(s: Desk, drafts: seq<Config>)
    ensures var p, q, last := s.policy, AfterPreviews(s, drafts).policy, LastSwitch(s.policy.magnetic, drafts);
      && q.magnetic == MagneticAfter(p.magnetic, drafts) && q.otherwisePaused == p.otherwisePaused
      && (last.Some? <==> Switched(p.magnetic, drafts))
      && q.notice == (if last.Some? then Clipboard.FreshNotice(q.magnetic) else p.notice)
      && q.attached == (p.attached && last.None?)
      && (last.None? ==> q.magnetic == p.magnetic)
    decreases |drafts|
  {
    if drafts != [] {
      var before, last := drafts[..|drafts| - 1], drafts[|drafts| - 1];
      SwitchAfter(s, before);
      assert drafts == before + [last];
      SwitchedSnoc(s.policy.magnetic, before, last);
    }
  }

  lemma {:induction false} SavedAfter(s: Desk, drafts: seq<Config>)
    ensures var last := LastSwitch(s.policy.magnetic, drafts);
      AfterPreviews(s, drafts).saved == if last.Some? then Some(Shown(s.model, last.value)) else s.saved
    decreases |drafts|
  {
    if drafts != [] {
      hide Reduce;
      var before, last := drafts[..|drafts| - 1], drafts[|drafts| - 1];
      SavedAfter(s, before);
      SwitchAfter(s, before);
      ModelAfter(s, before, last);
    }
  }

  // ---- the translation that waits ----

  /** The listener runs after a draft, if no draft up to it switched the magnetic mode on. */
  predicate Listens(p: Clipboard.Policy, draft: Config) {
    && draft.clipboardWatch && !p.otherwisePaused
    && if draft.magneticMode == p.magnetic then p.notice.None? else !draft.magneticMode
  }

  predicate ListensAfter(p: Clipboard.Policy, drafts: seq<Config>) {
    if drafts == [] then p.watching else Listens(p, drafts[|drafts| - 1])
  }

  /** No draft switches the magnetic mode on or stops the listener. */
  predicate Undisturbed(p: Clipboard.Policy, drafts: seq<Config>) {
    forall i :: 0 <= i < |drafts| ==>
      && (drafts[i].magneticMode ==> MagneticAfter(p.magnetic, drafts[..i]))
      && (ListensAfter(p, drafts[..i]) ==> Listens(p, drafts[i]))
  }

  lemma UndisturbedSnoc(p: Clipboard.Policy, drafts: seq<Config>, last: Config)
    ensures Undisturbed(p, drafts + [last])
      <==> && Undisturbed(p, drafts)
           && (last.magneticMode ==> MagneticAfter(p.magnetic, drafts))
           && (ListensAfter(p, drafts) ==> Listens(p, last))
  {
    var all := drafts + [last];
    forall i | 0 <= i <= |drafts|
      ensures all[..i] == drafts[..i] && (i < |drafts| ==> all[i] == drafts[i])
    {
    }
    assert drafts[..|drafts|] == drafts && all[|drafts|] == last;
  }

  lemma {:induction false} UndisturbedFromStart(p: Clipboard.Policy, drafts: seq<Config>)
    requires Undisturbed(p, drafts)
    ensures MagneticAfter(p.magnetic, drafts) ==> p.magnetic
    ensures p.watching ==> ListensAfter(p, drafts)
    decreases |drafts|
  {
    if drafts != [] {
      var before, last := drafts[..|drafts| - 1], drafts[|drafts| - 1];
      assert drafts == before + [last];
      UndisturbedSnoc(p, before, last);
      UndisturbedFromStart(p, before);
    }
  }

  /** What `next` alone disturbs is disturbed with any drafts in front of it. */
  lemma UndisturbedAlone(p: Clipboard.Policy, drafts: seq<Config>, next: Config)
    requires Undisturbed(p, drafts + [next])
    ensures Undisturbed(p, [next])
  {
    UndisturbedSnoc(p, drafts, next);
    UndisturbedFromStart(p, drafts);
    UndisturbedSnoc(p, [], next);
    assert [] + [next] == [next];
  }

  lemma {:induction false} PendingAfter(s: Desk, drafts: seq<Config>)
    ensures var p, q := s.policy, AfterPreviews(s, drafts).policy;
      && q.pending == (p.pending && Undisturbed(p, drafts))
      && (Undisturbed(p, drafts) ==> q.watching == ListensAfter(p, drafts) && OnlySwitchesOff(p, q, drafts))
    decreases |drafts|
  {
    if drafts != [] {
      var before, last := drafts[..|drafts| - 1], drafts[|drafts| - 1];
      PendingAfter(s, before);
      SwitchAfter(s, before);
      assert drafts == before + [last];
      UndisturbedSnoc(s.policy, before, last);
      SwitchedSnoc(s.policy.magnetic, before, last);
      hide Reduce, Switched, AfterPreviews, LastSwitch, Undisturbed, Listens;
      AfterSnoc(s, before, last);
      var q := AfterPreviews(s, before).policy;
      if Undisturbed(s.policy, before) && (last.magneticMode ==> q.magnetic) {
        ListensIfOnlyOff(s.policy, q, before, last);
      }
    }
  }

  predicate OnlySwitchesOff(p: Clipboard.Policy, q: Clipboard.Policy, drafts: seq<Config>) {
    (q.magnetic ==> p.magnetic) && (Switched(p.magnetic, drafts) ==> p.magnetic && !q.magnetic)
  }

  lemma ListensIfOnlyOff(p: Clipboard.Policy, q: Clipboard.Policy, drafts: seq<Config>, draft: Config)
    requires OnlySwitchesOff(p, q, drafts) && q.otherwisePaused == p.otherwisePaused
    requires !Switched(p.magnetic, drafts) ==> q.magnetic == p.magnetic
    requires q.notice == if Switched(p.magnetic, drafts) then Clipboard.FreshNotice(q.magnetic) else p.notice
    requires draft.magneticMode ==> q.magnetic
    ensures Clipboard.Previewed(q, draft.clipboardWatch, draft.magneticMode).watching == Listens(p, draft)
  {
    hide Switched;
  }

  // ---- the application itself ----

  /** What of a saved configuration the clipboard policy is about. */
  function SavedSettings(saved: Option<Config>): Option<Clipboard.Settings> {
    if saved.None? then None else Some(Clipboard.Settings(saved.value.clipboardWatch, saved.value.magneticMode))
  }

  /** The drafts are applied by the application one after the other, and nothing fails: its policy and what it
      saves are those computed above. */
  method ShowDrafts(app: Clipboard.App, ghost s: Desk, drafts: seq<Config>)
    requires app.clipboard.reliable && app.magneticStarts
    requires app.CurrentPolicy() == s.policy && app.saved == SavedSettings(s.saved)
    modifies app, app.clipboard
    ensures app.CurrentPolicy() == AfterPreviews(s, drafts).policy
    ensures app.saved == SavedSettings(AfterPreviews(s, drafts).saved)
  {
    assert drafts[..0] == [];
    for i := 0 to |drafts|
      invariant app.CurrentPolicy() == AfterPreviews(s, drafts[..i]).policy
      invariant app.saved == SavedSettings(AfterPreviews(s, drafts[..i]).saved)
    {
      assert drafts[..i + 1] == drafts[..i] + [drafts[i]];
      AfterSnoc(s, drafts[..i], drafts[i]);
      app.ApplySettings(drafts[i].clipboardWatch, drafts[i].magneticMode);
    }
    assert drafts[..|drafts|] == drafts;
  }

  // ---- when skipping cannot be seen ----

  /** The drafts may be skipped in front of `next`. First, none of them switches the magnetic mode; or
      `next` leaves it switched, and the configuration that would be saved is that of `next`; or `next`
      leaves it as it was, and both the notice of a fresh switch and the configuration that would be
      saved are there already. Second, they do not cancel a translation that `next` alone leaves alone. */
  predicate MaySkip(s: Desk, drafts: seq<Config>, next: Config) {
    var p := s.policy;
    && match LastSwitch(p.magnetic, drafts) {
         case None => true
         case Some(last) =>
           var kept := if next.magneticMode == MagneticAfter(p.magnetic, drafts) then last else next;
           if next.magneticMode != p.magnetic then Shown(s.model, kept) == Shown(s.model, next)
           else p.notice == Clipboard.FreshNotice(p.magnetic) && !p.attached && s.saved == Some(Shown(s.model, kept))
       }
    && (p.pending && Undisturbed(p, [next]) ==> Undisturbed(p, drafts + [next]))
  }

  /** The exact price of skipping superseded previews, effects included. */
  lemma SkippedPreviewsIff(s: Desk, drafts: seq<Config>, next: Config)
    ensures AfterPreviews(s, drafts + [next]) == AfterPreviews(s, [next]) <==> MaySkip(s, drafts, next)
  {
    hide Reduce, Undisturbed, Listens, Switched, AfterPreviews;
    var a, b := AfterPreviews(s, drafts + [next]), AfterPreviews(s, [next]);
    SamePolicy(s, drafts, next);
    SameSaved(s, drafts, next);
    AfterSnoc(s, drafts, next);
    AfterSnoc(s, [], next);
    assert [] + [next] == [next];
    ModelAfter(s, drafts, next);
    NothingPreviewed(s);
  }

  lemma NothingPreviewed(s: Desk)
    ensures AfterPreviews(s, []) == s
  {
  }

  lemma SamePolicy(s: Desk, drafts: seq<Config>, next: Config)
    ensures var p, last := s.policy, LastSwitch(s.policy.magnetic, drafts);
      AfterPreviews(s, drafts + [next]).policy == AfterPreviews(s, [next]).policy
      <==> && (last.Some? && next.magneticMode == p.magnetic ==>
                 p.notice == Clipboard.FreshNotice(p.magnetic) && !p.attached)
           && (p.pending && Undisturbed(p, [next]) ==> Undisturbed(p, drafts + [next]))
  {
    hide Reduce, Undisturbed, Listens, Switched, AfterPreviews, LastSwitch;
    AfterSnoc(s, drafts, next);
    AfterSnoc(s, [], next);
    assert [] + [next] == [next];
    NothingPreviewed(s);
    SwitchAfter(s, drafts);
    if Undisturbed(s.policy, drafts + [next]) {
      UndisturbedAlone(s.policy, drafts, next);
    }
    PendingAfter(s, drafts + [next]);
    PendingAfter(s, [next]);
  }

  lemma SameSaved(s: Desk, drafts: seq<Config>, next: Config)
    ensures var p, last := s.policy, LastSwitch(s.policy.magnetic, drafts);
      AfterPreviews(s, drafts + [next]).saved == AfterPreviews(s, [next]).saved
      <==> last.None? ||
           var kept := if next.magneticMode == MagneticAfter(p.magnetic, drafts) then last.value else next;
           if next.magneticMode != p.magnetic then Shown(s.model, kept) == Shown(s.model, next)
           else s.saved == Some(Shown(s.model, kept))
  {
    hide Reduce, Shown, AfterPreviews, AfterPreview;
    SavedAfter(s, drafts + [next]);
    SavedAfter(s, [next]);
    SwitchAfter(s, drafts);
    assert (drafts + [next])[..|drafts|] == drafts && [next][..0] == [];
  }

  // ---- runs in which it can be seen ----

  /** A listener that runs, a translation that waits, and nothing saved yet. */
  function Working(m: Model, magnetic: bool): Desk {
    Desk(m.(config := m.config.(clipboardWatch := true, magneticMode := magnetic)),
         Clipboard.Policy(true, magnetic, magnetic, true, None, false, true), None)
  }

  /** Both drafts switch the magnetic mode on, and only the first of them is saved. */
  lemma SkippingChangesTheSave(m: Model) returns (a: Config, b: Config)
    ensures var s := Working(m, false);
      && AfterPreviews(s, [a, b]).model == AfterPreviews(s, [b]).model
      && AfterPreviews(s, [a, b]).policy == AfterPreviews(s, [b]).policy
      && AfterPreviews(s, [a, b]).saved != AfterPreviews(s, [b]).saved
  {
    var s := Working(m, false);
    a := s.model.config.(magneticMode := true, look := "a");
    b := a.(look := "b");
    TwoPreviews(s, a, b);
  }

  /** A draft switches the magnetic mode off for a moment: the hook loses its target and asks for one. */
  lemma SkippingKeepsTheTarget(m: Model) returns (a: Config, b: Config)
    ensures var s := Working(m, true);
      && AfterPreviews(s, [a, b]).policy.notice == Some(Clipboard.SelectMagneticTarget)
      && !AfterPreviews(s, [a, b]).policy.attached
      && AfterPreviews(s, [b]).policy.notice == None && AfterPreviews(s, [b]).policy.attached
  {
    var s := Working(m, true);
    a := s.model.config.(magneticMode := false);
    b := s.model.config;
    TwoPreviews(s, a, b);
  }

  /** A draft switches the listener off for a moment: the translation that waits is cancelled. */
  lemma SkippingKeepsTheTranslation(m: Model) returns (a: Config, b: Config)
    ensures var s := Working(m, false);
      && !AfterPreviews(s, [a, b]).policy.pending && AfterPreviews(s, [b]).policy.pending
      && AfterPreviews(s, [a, b]).saved == AfterPreviews(s, [b]).saved
  {
    var s := Working(m, false);
    a := s.model.config.(clipboardWatch := false);
    b := s.model.config;
    TwoPreviews(s, a, b);
  }

  lemma TwoPreviews(s: Desk, a: Config, b: Config)
    ensures AfterPreviews(s, [a, b]) == AfterPreview(AfterPreview(s, a), b)
    ensures AfterPreviews(s, [b]) == AfterPreview(s, b)
  {
    AfterSnoc(s, [a], b);
    AfterSnoc(s, [], a);
    AfterSnoc(s, [], b);
    assert [a] + [b] == [a, b] && [] + [a] == [a] && [] + [b] == [b];
  }
}
