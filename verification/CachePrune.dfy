/** Which rows a prune deletes, and what the memory holds after it was reloaded. */
module CachePrune {
  import opened Prelude
  import opened CacheProtocol
  import opened TranslationCache

  /** The row was written in the thirty days before `now`. */
  predicate Young(row: Row, now: int) {
    now - row.updatedAt <= 2_592_000
  }

  function YoungKeys(d: Table, now: int): set<CacheKey> {
    set k | k in d && Young(d[k], now)
  }

  /** `keys` are what a prune keeps of the table `d`: young rows, and of those all that are not crowded out
      by 10,000 rows of which none is older. */
  ghost predicate IsPruned(d: Table, now: int, keys: set<CacheKey>) {
    && (forall k :: k in keys ==> k in d && Young(d[k], now))
    && (forall k :: k in d && Young(d[k], now) && k !in keys ==>
          |keys| == 10_000 && forall o :: o in keys ==> o in d && d[o].updatedAt >= d[k].updatedAt)
  }

  /** A prune leaves the young rows as they are, and deletes one of them only if it is crowded out. */
  lemma PruneKeepsYoungRows(d: Table, now: int, d2: Table)
    requires Executes(d, Prune(now), d2)
    ensures IsPruned(d, now, d2.Keys) && forall k :: k in d2 ==> d2[k] == d[k]
  {
    var kept :| NewestRows(Aged(d, now), CACHE_MAX_ROWS, kept) && d2 == Restrict(Aged(d, now), kept);
    KeptRows(d, now, kept);
  }

  lemma KeptRows(d: Table, now: int, kept: set<CacheKey>)
    requires NewestRows(Aged(d, now), CACHE_MAX_ROWS, kept)
    ensures var d2 := Restrict(Aged(d, now), kept);
      d2.Keys == kept && IsPruned(d, now, d2.Keys) && forall k :: k in d2 ==> d2[k] == d[k]
  {
    var aged := Aged(d, now);
    assert Restrict(aged, kept).Keys == kept;
    forall k | k in d && Young(d[k], now) && k !in kept
      ensures |kept| == 10_000
    {
      if |kept| == |aged| {
        SameSize(kept, aged.Keys);
      }
    }
  }

  lemma SameSize<T>(a: set<T>, b: set<T>)
    requires a <= b && |a| == |b|
    ensures a == b
  {
    var rest := b - a;
    assert b == a + rest && a !! rest;
  }

  /** With at most 10,000 young rows none is crowded out. */
  lemma NothingCrowdedOut(d: Table, now: int, keys: set<CacheKey>)
    requires IsPruned(d, now, keys) && |YoungKeys(d, now)| <= 10_000
    ensures keys == YoungKeys(d, now)
  {
    var young := YoungKeys(d, now);
    var rest := young - keys;
    assert keys <= young && young == keys + rest && |young| == |keys| + |rest|;
    assert forall k :: k in rest ==> |keys| == 10_000;
    assert rest == {};
  }

  // ---- the reload, with anything the UI thread does in between ----

  ghost predicate UiSteps(s: State, actions: seq<Action>)
    decreases |actions|
  {
    actions != [] ==> !IsWrite(actions[0]) && Enabled(s, actions[0]) && UiSteps(Step(s, actions[0]), actions[1..])
  }

  ghost function AfterUi(s: State, actions: seq<Action>): State
    requires UiSteps(s, actions)
    decreases |actions|
  {
    if actions == [] then s else AfterUi(Step(s, actions[0]), actions[1..])
  }

  lemma {:induction false} UiKeepsTable(s: State, actions: seq<Action>)
    requires UiSteps(s, actions)
    ensures AfterUi(s, actions).db == s.db && AfterUi(s, actions).writer == s.writer
    decreases |actions|
  {
    if actions != [] {
      UiStepKeepsTable(s, actions[0]);
      hide Step, Enabled, IsWrite;
      UiKeepsTable(Step(s, actions[0]), actions[1..]);
    }
  }

  lemma UiStepKeepsTable(s: State, a: Action)
    requires !IsWrite(a) && Enabled(s, a)
    ensures Step(s, a).db == s.db && Step(s, a).writer == s.writer
  {
    if IsSend(a) {
    } else if IsFlagOrWipe(a) {
    } else {
      assert IsLocal(a) || a.PutInsert?;
    }
  }

  /** The memory holds the texts of what a prune at `now` keeps of the table. */
  ghost predicate HoldsPruned(memory: Memory, d: Table, now: int) {
    && IsPruned(d, now, memory.Keys)
    && (forall k :: k in memory ==> memory[k] == d[k].translation)
    && (|YoungKeys(d, now)| <= 10_000 ==> memory.Keys == YoungKeys(d, now))
  }

  /** However the UI thread runs in between, the reload leaves the memory with the texts of the young rows
      of the table as it was when the Prune was taken from the queue. */
  lemma PruneReloads(s: State, kept: set<CacheKey>, first: seq<Action>, second: seq<Action>)
    requires Enabled(s, WritePruneAge) && UiSteps(Step(s, WritePruneAge), first)
    requires var aged := AfterUi(Step(s, WritePruneAge), first);
      Enabled(aged, WritePruneCap(kept)) && UiSteps(Step(aged, WritePruneCap(kept)), second)
    ensures var capped := AfterUi(Step(AfterUi(Step(s, WritePruneAge), first), WritePruneCap(kept)), second);
      Enabled(capped, WritePruneLoad) && HoldsPruned(Step(capped, WritePruneLoad).memory, s.db, s.queue[0].now)
  {
    var aged := AfterUi(Step(s, WritePruneAge), first);
    var capped := AfterUi(Step(aged, WritePruneCap(kept)), second);
    UiKeepsTable(Step(s, WritePruneAge), first);
    UiKeepsTable(Step(aged, WritePruneCap(kept)), second);
    LoadHoldsPruned(s.db, s.queue[0].now, kept);
  }

  lemma LoadHoldsPruned(d: Table, now: int, kept: set<CacheKey>)
    requires NewestRows(Aged(d, now), CACHE_MAX_ROWS, kept)
    ensures HoldsPruned(Load(Restrict(Aged(d, now), kept)), d, now)
  {
    KeptRows(d, now, kept);
    var d2 := Restrict(Aged(d, now), kept);
    assert Load(d2).Keys == d2.Keys;
    if |YoungKeys(d, now)| <= 10_000 {
      NothingCrowdedOut(d, now, d2.Keys);
    }
  }

  /** The store's writer thread, from taking a Prune to the reload. */
  method RunPrune(store: TranslationCacheStore)
    requires store.Valid() && store.writer.Ready? && store.queue != [] && store.queue[0].Prune?
    modifies store
    ensures store.Valid() && store.writer.PruneLoaded? && store.queue == old(store.queue)[1..]
    ensures HoldsPruned(store.memory, old(store.db), old(store.queue)[0].now)
  {
    hide InSomeRun, IsWriterStep, HoldsPruned, NewestRows, Aged, Restrict, Load;
    ghost var s := store.St();
    store.TakeCommand();
    ghost var aged := store.St();
    TakesPrune(s, aged);
    store.ContinuePrune();
    ghost var capped := store.St();
    ghost var kept := CapsTable(aged, capped);
    store.ContinuePrune();
    Reloads(capped, store.St());
    LoadHoldsPruned(s.db, s.queue[0].now, kept);
  }

  lemma TakesPrune(s: State, t: State)
    requires IsWriterStep(s, t) && s.writer.Ready? && s.queue != [] && s.queue[0].Prune?
    ensures t == s.(db := Aged(s.db, s.queue[0].now), queue := s.queue[1..], writer := PruneAged)
  {
    var a := StepTaken(s, t);
    assert a.WritePruneAge?;
  }

  lemma CapsTable(s: State, t: State) returns (kept: set<CacheKey>)
    requires IsWriterStep(s, t) && s.writer.PruneAged?
    ensures NewestRows(s.db, CACHE_MAX_ROWS, kept) && t == s.(db := Restrict(s.db, kept), writer := PruneCapped)
  {
    var a := StepTaken(s, t);
    assert a.WritePruneCap?;
    kept := a.kept;
  }

  lemma Reloads(s: State, t: State)
    requires IsWriterStep(s, t) && s.writer.PruneCapped?
    ensures t == s.(memory := Load(s.db), trimmed := true, writer := PruneLoaded)
  {
    var a := StepTaken(s, t);
    assert a.WritePruneLoad?;
  }

  lemma StepTaken(s: State, t: State) returns (a: Action)
    requires IsWriterStep(s, t)
    ensures IsWrite(a) && Enabled(s, a) && t == Step(s, a)
  {
    hide Step, Enabled, IsWrite;
    a :| IsWrite(a) && Enabled(s, a) && t == Step(s, a);
  }
}
