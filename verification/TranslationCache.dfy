/** The translation cache as a protocol between the UI thread and the writer thread.
    Every step is one atomic action on the shared state. */
module CacheProtocol {
  import opened Prelude

  const CACHE_TTL_SECS: int := 30 * 24 * 60 * 60
  const CACHE_MAX_ROWS: nat := 10_000
  const PUTS_PER_PRUNE: nat := 100

  datatype CacheKey = CacheKey(engineId: string, sourceLang: string, targetLang: string, original: string)
  datatype Row = Row(translation: string, updatedAt: int)
  type Table = map<CacheKey, Row>
  type Memory = map<CacheKey, string>

  datatype CacheWrite =
    | Put(key: CacheKey, translation: string, updatedAt: int)
    | Clear
    | Prune(now: int)

  /** Where the writer thread stands inside the command it took from the queue. */
  datatype Writer = Ready | PruneAged | PruneCapped | PruneLoaded | ClearDeleted | ClearWiped

  /** Where the UI thread stands inside `get`, `put`, `schedule_prune` or `clear`. */
  datatype Ui =
    | Idle
    | GetReading(key: CacheKey)
    | PutGate(key: CacheKey, translation: string)
    | PutAdmitted(key: CacheKey, translation: string)
    | PutInserted(key: CacheKey, translation: string)
    | PutSent
    | PruneWanted
    | PruneFlagged
    | ClearWanted
    | ClearFlagged
    | ClearEmptied

  /** `accepted`, `started` and `trimmed` are history: the puts admitted since the last admitted
      clear, whether a Prune was ever queued, and whether the first one has reloaded the memory. */
  datatype State = State(
    db: Table, memory: Memory, queue: seq<CacheWrite>,
    clearing: bool, pruning: bool, puts: nat,
    ui: Ui, writer: Writer,
    accepted: Memory, started: bool, trimmed: bool)

  datatype Action =
    | GetCheck(getKey: CacheKey) | GetRead
    | PutCheck(putKey: CacheKey, putText: string) | PutGateCheck | PutInsert | PutSend(putNow: int) | PutCount
    | PruneCas | PruneSend(pruneNow: int)
    | ClearReset | ClearCas | ClearMemory | ClearSend
    | WritePut
    | WriteClearDelete | WriteClearWipe | WriteClearDone
    | WritePruneAge | WritePruneCap(kept: set<CacheKey>) | WritePruneLoad | WritePruneDone

  function Load(db: Table): Memory {
    map k | k in db :: db[k].translation
  }

  function Aged(db: Table, now: int): Table {
    map k | k in db && db[k].updatedAt >= now - CACHE_TTL_SECS :: db[k]
  }

  function Restrict(db: Table, kept: set<CacheKey>): Table {
    map k | k in db && k in kept :: db[k]
  }

  /** `kept` is one answer SQL may give to ORDER BY updated_at DESC LIMIT max; ties are open. */
  predicate NewestRows(db: Table, max: nat, kept: set<CacheKey>) {
    && kept <= db.Keys
    && |kept| == Min(|db|, max)
    && forall a, b :: a in kept && b in db && b !in kept ==> db[b].updatedAt <= db[a].updatedAt
  }

  predicate Enabled(s: State, a: Action) {
    match a
    case GetCheck(_) => s.ui.Idle?
    case GetRead => s.ui.GetReading?
    case PutCheck(_, _) => s.ui.Idle?
    case PutGateCheck => s.ui.PutGate?
    case PutInsert => s.ui.PutAdmitted?
    case PutSend(_) => s.ui.PutInserted?
    case PutCount => s.ui.PutSent?
    case PruneCas => s.ui.PruneWanted?
    case PruneSend(_) => s.ui.PruneFlagged?
    case ClearReset => s.ui.Idle?
    case ClearCas => s.ui.ClearWanted?
    case ClearMemory => s.ui.ClearFlagged?
    case ClearSend => s.ui.ClearEmptied?
    case WritePut => s.writer.Ready? && |s.queue| > 0 && s.queue[0].Put?
    case WriteClearDelete => s.writer.Ready? && |s.queue| > 0 && s.queue[0].Clear?
    case WriteClearWipe => s.writer.ClearDeleted?
    case WriteClearDone => s.writer.ClearWiped?
    case WritePruneAge => s.writer.Ready? && |s.queue| > 0 && s.queue[0].Prune?
    case WritePruneCap(kept) => s.writer.PruneAged? && NewestRows(s.db, CACHE_MAX_ROWS, kept)
    case WritePruneLoad => s.writer.PruneCapped?
    case WritePruneDone => s.writer.PruneLoaded?
  }

  function Step(s: State, a: Action): State
    requires Enabled(s, a)
  {
    match a
    case GetCheck(k) => s.(ui := if s.clearing then Idle else GetReading(k))
    case GetRead => s.(ui := Idle)
    case PutCheck(k, t) => s.(ui := if s.clearing then Idle else PutGate(k, t))
    case PutGateCheck => s.(ui := if s.pruning then Idle else PutAdmitted(s.ui.key, s.ui.translation))
    case PutInsert =>
      s.(memory := s.memory[s.ui.key := s.ui.translation],
         accepted := s.accepted[s.ui.key := s.ui.translation],
         ui := PutInserted(s.ui.key, s.ui.translation))
    case PutSend(now) => s.(queue := s.queue + [Put(s.ui.key, s.ui.translation, now)], ui := PutSent)
    case PutCount =>
      if s.puts + 1 >= PUTS_PER_PRUNE then s.(puts := 0, ui := PruneWanted) else s.(puts := s.puts + 1, ui := Idle)
    case PruneCas => if s.pruning then s.(ui := Idle) else s.(pruning := true, ui := PruneFlagged)
    case PruneSend(now) => s.(queue := s.queue + [Prune(now)], started := true, ui := Idle)
    case ClearReset => s.(puts := 0, ui := ClearWanted)
    case ClearCas =>
      if s.clearing then s.(ui := Idle) else s.(clearing := true, accepted := map[], ui := ClearFlagged)
    case ClearMemory => s.(memory := map[], ui := ClearEmptied)
    case ClearSend => s.(queue := s.queue + [Clear], ui := Idle)
    case WritePut =>
      s.(db := s.db[s.queue[0].key := Row(s.queue[0].translation, s.queue[0].updatedAt)], queue := s.queue[1..])
    case WriteClearDelete => s.(db := map[], queue := s.queue[1..], writer := ClearDeleted)
    case WriteClearWipe => s.(memory := map[], writer := ClearWiped)
    case WriteClearDone => s.(clearing := false, writer := Ready)
    case WritePruneAge => s.(db := Aged(s.db, s.queue[0].now), queue := s.queue[1..], writer := PruneAged)
    case WritePruneCap(kept) => s.(db := Restrict(s.db, kept), writer := PruneCapped)
    case WritePruneLoad => s.(memory := Load(s.db), trimmed := true, writer := PruneLoaded)
    case WritePruneDone => s.(pruning := false, writer := Ready)
  }

  /** `open` has loaded the rows and is about to call `schedule_prune`. */
  predicate Init(s: State) {
    s == State(s.db, Load(s.db), [], false, false, 0, PruneWanted, Ready, Load(s.db), false, false)
  }

  /** `s` is reached by some run of `n` atomic actions of the two threads. */
  ghost predicate Reachable(s: State, n: nat)
    decreases n
  {
    if n == 0 then Init(s)
    else exists p: State, a: Action :: Reachable(p, n - 1) && Enabled(p, a) && s == Step(p, a)
  }

  // ---- the queue, read as a transformation of the table ----

  /** The memory that the puts of `q` would leave behind. */
  function ApplyPuts(m: Memory, q: seq<CacheWrite>): Memory
    decreases |q|
  {
    if q == [] then m
    else ApplyPuts(if q[0].Put? then m[q[0].key := q[0].translation] else m, q[1..])
  }

  function Puts(q: seq<CacheWrite>): nat {
    if q == [] then 0 else (if q[0].Put? then 1 else 0) + Puts(q[1..])
  }

  /** `d2` is a possible table after command `c` ran on `d`. */
  ghost predicate Executes(d: Table, c: CacheWrite, d2: Table) {
    match c
    case Put(k, t, at) => d2 == d[k := Row(t, at)]
    case Clear => d2 == map[]
    case Prune(now) => Caps(Aged(d, now), d2)
  }

  ghost predicate Caps(d: Table, d2: Table) {
    exists kept :: NewestRows(d, CACHE_MAX_ROWS, kept) && d2 == Restrict(d, kept)
  }

  ghost predicate Replays(d: Table, q: seq<CacheWrite>, d2: Table)
    decreases |q|
  {
    if q == [] then d2 == d
    else exists mid :: Executes(d, q[0], mid) && Replays(mid, q[1..], d2)
  }

  /** `d` is a possible table once the running command and every queued one have finished. */
  ghost predicate FinalTable(s: State, d: Table) {
    if s.writer.PruneAged? then exists mid :: Caps(s.db, mid) && Replays(mid, s.queue, d)
    else Replays(s.db, s.queue, d)
  }

  datatype QueueShape = PutsOnly | EndsInPrune | EndsInClear | EndsInPruneClear | Malformed

  /** Puts come first, then at most one Prune, then at most one Clear; anything else is malformed. */
  function ShapeOf(q: seq<CacheWrite>): QueueShape {
    if q == [] then PutsOnly
    else match q[0]
      case Put(_, _, _) => ShapeOf(q[1..])
      case Prune(_) => if |q| == 1 then EndsInPrune else if q[1..] == [Clear] then EndsInPruneClear else Malformed
      case Clear => if |q| == 1 then EndsInClear else Malformed
  }

  lemma {:induction false} ShapeSnoc(q: seq<CacheWrite>, c: CacheWrite)
    ensures ShapeOf(q).PutsOnly? ==>
      ShapeOf(q + [c]) == (match c case Put(_, _, _) => PutsOnly case Prune(_) => EndsInPrune case Clear => EndsInClear)
    ensures ShapeOf(q).EndsInPrune? && c.Clear? ==> ShapeOf(q + [c]) == EndsInPruneClear
  {
    if q == [] {
      assert q + [c] == [c];
      assert [c][1..] == [];
    } else {
      ShapeSnoc(q[1..], c);
      assert (q + [c])[1..] == q[1..] + [c];
    }
  }

  function After(rows: nat, c: CacheWrite): nat {
    match c
    case Put(_, _, _) => rows + 1
    case Clear => 0
    case Prune(_) => Min(rows, CACHE_MAX_ROWS)
  }

  /** An upper bound on the rows left by running `q` on a table of `rows` rows. */
  function Bound(rows: nat, q: seq<CacheWrite>): nat
    decreases |q|
  {
    if q == [] then rows else Bound(After(rows, q[0]), q[1..])
  }

  lemma {:induction false} BoundSnoc(rows: nat, q: seq<CacheWrite>, c: CacheWrite)
    ensures Bound(rows, q + [c]) == After(Bound(rows, q), c)
    decreases |q|
  {
    if q == [] {
      assert [c][1..] == [];
      assert q + [c] == [c];
    } else {
      BoundSnoc(After(rows, q[0]), q[1..], c);
      assert (q + [c])[1..] == q[1..] + [c];
    }
  }

  lemma {:induction false} BoundMonotone(a: nat, b: nat, q: seq<CacheWrite>)
    requires a <= b
    ensures Bound(a, q) <= Bound(b, q)
    decreases |q|
  {
    if q != [] {
      BoundMonotone(After(a, q[0]), After(b, q[0]), q[1..]);
    }
  }

  lemma {:induction false} BoundOfPuts(rows: nat, q: seq<CacheWrite>)
    requires ShapeOf(q).PutsOnly?
    ensures Bound(rows, q) == rows + Puts(q)
    decreases |q|
  {
    if q != [] {
      BoundOfPuts(rows + 1, q[1..]);
    }
  }

  lemma {:induction false} BoundEndsInClear(rows: nat, q: seq<CacheWrite>)
    requires ShapeOf(q).EndsInClear? || ShapeOf(q).EndsInPruneClear?
    ensures Bound(rows, q) == 0
    decreases |q|
  {
    if q[0].Put? {
      BoundEndsInClear(rows + 1, q[1..]);
    } else if q[0].Prune? {
      BoundEndsInClear(After(rows, q[0]), q[1..]);
    }
  }

  lemma {:induction false} PutsSnoc(q: seq<CacheWrite>, c: CacheWrite)
    ensures Puts(q + [c]) == Puts(q) + (if c.Put? then 1 else 0)
  {
    if q == [] {
      assert q + [c] == [c];
      assert [c][1..] == [];
    } else {
      PutsSnoc(q[1..], c);
      assert (q + [c])[1..] == q[1..] + [c];
    }
  }

  lemma {:induction false} ApplyPutsSnoc(m: Memory, q: seq<CacheWrite>, c: CacheWrite)
    ensures ApplyPuts(m, q + [c]) == if c.Put? then ApplyPuts(m, q)[c.key := c.translation] else ApplyPuts(m, q)
    decreases |q|
  {
    if q == [] {
      assert q + [c] == [c];
      assert [c][1..] == [];
    } else {
      ApplyPutsSnoc(if q[0].Put? then m[q[0].key := q[0].translation] else m, q[1..], c);
      assert (q + [c])[1..] == q[1..] + [c];
    }
  }

  lemma {:induction false} ApplyPutsSize(m: Memory, q: seq<CacheWrite>)
    ensures |ApplyPuts(m, q)| <= |m| + Puts(q)
    decreases |q|
  {
    if q != [] {
      ApplyPutsSize(if q[0].Put? then m[q[0].key := q[0].translation] else m, q[1..]);
    }
  }

  lemma LoadSize(db: Table)
    ensures |Load(db)| == |db|
  {
    assert Load(db).Keys == db.Keys;
  }

  lemma LoadAfterPut(db: Table, key: CacheKey, text: string, at: int)
    ensures Load(db[key := Row(text, at)]) == Load(db)[key := text]
    ensures |db[key := Row(text, at)]| <= |db| + 1
  {
    assert db[key := Row(text, at)].Keys == db.Keys + {key};
  }

  lemma SubsetSize(a: set<CacheKey>, b: set<CacheKey>)
    requires a <= b
    ensures |a| <= |b|
  {
    assert b == a + (b - a);
  }

  lemma RestrictSize(db: Table, kept: set<CacheKey>)
    requires kept <= db.Keys
    ensures |Restrict(db, kept)| == |kept|
  {
    assert Restrict(db, kept).Keys == kept;
  }

  lemma AgedSize(db: Table, now: int)
    ensures |Aged(db, now)| <= |db|
  {
    SubsetSize(Aged(db, now).Keys, db.Keys);
  }

  lemma ExecutesWithinAfter(d: Table, c: CacheWrite, d2: Table)
    requires Executes(d, c, d2)
    ensures |d2| <= After(|d|, c)
  {
    match c {
      case Put(k, t, at) => LoadAfterPut(d, k, t, at);
      case Clear =>
      case Prune(now) =>
        var kept :| NewestRows(Aged(d, now), CACHE_MAX_ROWS, kept) && d2 == Restrict(Aged(d, now), kept);
        AgedSize(d, now);
        RestrictSize(Aged(d, now), kept);
    }
  }

  /** Every possible replay of the queue stays within `Bound`. */
  lemma {:induction false} ReplayWithinBound(d: Table, q: seq<CacheWrite>, d2: Table)
    requires Replays(d, q, d2)
    ensures |d2| <= Bound(|d|, q)
    decreases |q|
  {
    if q != [] {
      var mid :| Executes(d, q[0], mid) && Replays(mid, q[1..], d2);
      ReplayWithinBound(mid, q[1..], d2);
      ExecutesWithinAfter(d, q[0], mid);
      BoundMonotone(|mid|, After(|d|, q[0]), q[1..]);
    }
  }

  /** A queue of puts has one replay only: the table whose texts are `ApplyPuts`. */
  lemma {:induction false} ReplayOfPuts(d: Table, q: seq<CacheWrite>, d2: Table)
    requires Replays(d, q, d2)
    requires ShapeOf(q).PutsOnly?
    ensures Load(d2) == ApplyPuts(Load(d), q)
    decreases |q|
  {
    if q != [] {
      var mid :| Executes(d, q[0], mid) && Replays(mid, q[1..], d2);
      ReplayOfPuts(mid, q[1..], d2);
      assert Load(mid) == Load(d)[q[0].key := q[0].translation];
    }
  }

  // ---- the invariant ----

  predicate ClearQueued(q: seq<CacheWrite>) {
    ShapeOf(q).EndsInClear? || ShapeOf(q).EndsInPruneClear?
  }

  predicate PruneQueued(q: seq<CacheWrite>) {
    ShapeOf(q).EndsInPrune? || ShapeOf(q).EndsInPruneClear?
  }

  predicate WriterPrunes(w: Writer) {
    w.PruneAged? || w.PruneCapped? || w.PruneLoaded?
  }

  predicate WriterClears(w: Writer) {
    w.ClearDeleted? || w.ClearWiped?
  }

  predicate UiClears(u: Ui) {
    u.ClearFlagged? || u.ClearEmptied?
  }

  predicate PastPutGate(u: Ui) {
    u.PutAdmitted? || u.PutInserted? || u.PutSent? || u.PruneWanted?
  }

  /** Each raised flag is owned by exactly one pending, running or about-to-be-sent command. */
  predicate FlagInv(s: State) {
    && !ShapeOf(s.queue).Malformed?
    && (s.clearing <==> ClearQueued(s.queue) || WriterClears(s.writer) || UiClears(s.ui))
    && (ClearQueued(s.queue) ==> !WriterClears(s.writer) && !UiClears(s.ui))
    && (WriterClears(s.writer) ==> !UiClears(s.ui) && s.queue == [])
    && (s.pruning <==> PruneQueued(s.queue) || WriterPrunes(s.writer) || s.ui.PruneFlagged?)
    && (PruneQueued(s.queue) ==> !WriterPrunes(s.writer) && !s.ui.PruneFlagged?)
    && (WriterPrunes(s.writer) ==> !s.ui.PruneFlagged? && (s.queue == [] || s.queue == [Clear]))
    && (s.ui.GetReading? || s.ui.PutGate? || s.ui.PruneFlagged? || PastPutGate(s.ui) ==> !s.clearing)
    && (PastPutGate(s.ui) ==> !s.pruning)
  }

  /** The texts left once the queued puts, and the one being sent, have reached the table. */
  function Settled(s: State): Memory {
    var m := ApplyPuts(Load(s.db), s.queue);
    if s.ui.PutInserted? then m[s.ui.key := s.ui.translation] else m
  }

  predicate ValueInv(s: State) {
    && (s.clearing ==> s.accepted == map[])
    && (!s.clearing ==> Submap(s.memory, s.accepted) && Submap(Settled(s), s.accepted))
    && (!s.clearing && !s.pruning ==> s.memory == Settled(s))
    && (s.writer.PruneLoaded? && !s.clearing ==> s.memory == Load(s.db))
    && (WriterClears(s.writer) ==> s.db == map[])
    && (s.writer.ClearWiped? ==> s.memory == map[])
  }

  function Rows(s: State): nat {
    if s.writer.PruneAged? then Min(|s.db|, CACHE_MAX_ROWS) else |s.db|
  }

  /** How many puts the size bound may be off by at this point of the UI thread. */
  function Credit(s: State): nat {
    match s.ui
    case PutSent => s.puts + 1
    case PruneWanted => PUTS_PER_PRUNE
    case PruneFlagged => PUTS_PER_PRUNE
    case ClearWanted => PUTS_PER_PRUNE
    case ClearFlagged => PUTS_PER_PRUNE
    case ClearEmptied => PUTS_PER_PRUNE
    case _ => s.puts
  }

  predicate SizeInv(s: State) {
    && s.puts < PUTS_PER_PRUNE
    && (s.ui.PruneWanted? || s.ui.PruneFlagged? || s.ui.ClearWanted? || UiClears(s.ui) ==> s.puts == 0)
    && (s.started ==> Bound(Rows(s), s.queue) <= CACHE_MAX_ROWS + Credit(s))
    && (!s.started ==> s.ui.PruneWanted? || s.ui.PruneFlagged?)
    && (s.writer.PruneCapped? ==> |s.db| <= CACHE_MAX_ROWS)
    && (s.trimmed ==> s.started)
    && (s.trimmed ==> |s.db| + Puts(s.queue) <= CACHE_MAX_ROWS + PUTS_PER_PRUNE)
    && (s.trimmed ==> |s.memory| <= CACHE_MAX_ROWS + PUTS_PER_PRUNE)
  }

  predicate Inv(s: State) {
    FlagInv(s) && ValueInv(s) && SizeInv(s)
  }

  lemma InitInv(s: State)
    requires Init(s)
    ensures Inv(s)
  {
  }

  predicate IsSend(a: Action) {
    a.PutSend? || a.PruneSend? || a.ClearSend?
  }

  predicate IsPruneWrite(a: Action) {
    a.WritePruneAge? || a.WritePruneCap? || a.WritePruneLoad? || a.WritePruneDone?
  }

  predicate IsClearWrite(a: Action) {
    a.WriteClearDelete? || a.WriteClearWipe? || a.WriteClearDone?
  }

  predicate IsFlagOrWipe(a: Action) {
    a.PruneCas? || a.ClearCas? || a.ClearMemory?
  }

  function Sent(s: State, a: Action): CacheWrite
    requires IsSend(a) && Enabled(s, a)
  {
    match a
    case PutSend(now) => Put(s.ui.key, s.ui.translation, now)
    case PruneSend(now) => Prune(now)
    case ClearSend => Clear
  }

  predicate IsLocal(a: Action) {
    a.GetCheck? || a.GetRead? || a.PutCheck? || a.PutGateCheck? || a.PutCount? || a.ClearReset?
  }

  lemma LocalKeepsInv(s: State, a: Action)
    requires Inv(s) && Enabled(s, a) && IsLocal(a)
    ensures Inv(Step(s, a))
  {
    hide ApplyPuts, Bound, Puts, Load, ShapeOf, Submap;
  }

  lemma SendKeepsInv(s: State, a: Action)
    requires Inv(s) && Enabled(s, a) && IsSend(a)
    ensures Inv(Step(s, a))
  {
    ShapeSnoc(s.queue, Sent(s, a));
    ApplyPutsSnoc(Load(s.db), s.queue, Sent(s, a));
    BoundSnoc(Rows(s), s.queue, Sent(s, a));
    PutsSnoc(s.queue, Sent(s, a));
    if a.PutSend? {
      BoundOfPuts(|s.db|, s.queue);
    }
  }

  lemma InsertKeepsInv(s: State)
    requires Inv(s) && Enabled(s, PutInsert)
    ensures Inv(Step(s, PutInsert))
  {
    InsertKeepsValues(s);
    InsertKeepsSize(s);
    hide ApplyPuts, Load, Puts, Bound, ValueInv, SizeInv, ShapeOf;
  }

  lemma InsertKeepsValues(s: State)
    requires FlagInv(s) && ValueInv(s) && Enabled(s, PutInsert)
    ensures ValueInv(Step(s, PutInsert))
  {
    hide ApplyPuts, Load, ShapeOf;
  }

  lemma InsertKeepsSize(s: State)
    requires Inv(s) && Enabled(s, PutInsert)
    ensures SizeInv(Step(s, PutInsert))
  {
    hide ApplyPuts, Load, Puts, Bound;
    BoundOfPuts(|s.db|, s.queue);
    ApplyPutsSize(Load(s.db), s.queue);
    LoadSize(s.db);
    InsertGrows(s.memory, s.ui.key, s.ui.translation);
    hide Submap, ShapeOf;
  }

  lemma InsertGrows(m: Memory, key: CacheKey, text: string)
    ensures |m[key := text]| <= |m| + 1
  {
    assert m[key := text].Keys == m.Keys + {key};
  }

  lemma FlagOrWipeKeepsInv(s: State, a: Action)
    requires Inv(s) && Enabled(s, a) && IsFlagOrWipe(a)
    ensures Inv(Step(s, a))
  {
    if a.ClearCas? && ClearQueued(s.queue) {
      BoundEndsInClear(Rows(s), s.queue);
    }
  }

  lemma PutWriteKeepsInv(s: State)
    requires Inv(s) && Enabled(s, WritePut)
    ensures Inv(Step(s, WritePut))
  {
    var t := Step(s, WritePut);
    var c := s.queue[0];
    LoadAfterPut(s.db, c.key, c.translation, c.updatedAt);
    assert FlagInv(t);
    assert Settled(t) == Settled(s);
    BoundMonotone(|t.db|, |s.db| + 1, t.queue);
    assert Puts(s.queue) == Puts(t.queue) + 1;
    assert SizeInv(t);
  }

  lemma ClearWriteKeepsInv(s: State, a: Action)
    requires Inv(s) && Enabled(s, a) && IsClearWrite(a)
    ensures Inv(Step(s, a))
  {
  }

  lemma PruneAgeKeepsInv(s: State)
    requires Inv(s) && Enabled(s, WritePruneAge)
    ensures Inv(Step(s, WritePruneAge))
  {
    var t := Step(s, WritePruneAge);
    AgedSize(s.db, s.queue[0].now);
    BoundMonotone(Rows(t), After(|s.db|, s.queue[0]), t.queue);
    assert t.queue == [] || t.queue == [Clear];
    assert ApplyPuts(Load(s.db), t.queue) == Load(s.db);
    assert Submap(Load(t.db), Load(s.db));
  }

  lemma PruneWriteKeepsInv(s: State, a: Action)
    requires Inv(s) && Enabled(s, a) && IsPruneWrite(a)
    ensures Inv(Step(s, a))
  {
    if a.WritePruneAge? {
      PruneAgeKeepsInv(s);
    } else if a.WritePruneCap? {
      RestrictSize(s.db, a.kept);
    } else if a.WritePruneLoad? {
      LoadSize(s.db);
    }
  }

  lemma StepInv(s: State, a: Action)
    requires Inv(s) && Enabled(s, a)
    ensures Inv(Step(s, a))
  {
    if IsSend(a) {
      SendKeepsInv(s, a);
    } else if IsFlagOrWipe(a) {
      FlagOrWipeKeepsInv(s, a);
    } else if IsClearWrite(a) {
      ClearWriteKeepsInv(s, a);
    } else if IsPruneWrite(a) {
      PruneWriteKeepsInv(s, a);
    } else if a.PutInsert? {
      InsertKeepsInv(s);
    } else if a.WritePut? {
      PutWriteKeepsInv(s);
    } else {
      LocalKeepsInv(s, a);
    }
  }

  /** Every state of every interleaving satisfies the invariant. */
  lemma {:induction false} ReachableInv(s: State, n: nat)
    requires Reachable(s, n)
    ensures Inv(s)
    decreases n
  {
    if n == 0 {
      InitInv(s);
    } else {
      var p: State, a: Action :| Reachable(p, n - 1) && Enabled(p, a) && s == Step(p, a);
      ReachableInv(p, n - 1);
      StepInv(p, a);
    }
  }

  ghost predicate InSomeRun(s: State) {
    exists n: nat :: Reachable(s, n)
  }

  lemma RunInv(s: State)
    requires InSomeRun(s)
    ensures Inv(s)
  {
    var n: nat :| Reachable(s, n);
    ReachableInv(s, n);
  }

  lemma StepInRun(s: State, a: Action)
    requires InSomeRun(s) && Enabled(s, a)
    ensures InSomeRun(Step(s, a))
  {
    var n: nat :| Reachable(s, n);
    assert Reachable(Step(s, a), n + 1);
  }

  /** The writer thread has taken exactly one of its steps. */
  ghost predicate IsWriterStep(s: State, t: State) {
    exists a: Action :: IsWrite(a) && Enabled(s, a) && t == Step(s, a)
  }

  lemma WriteInRun(s: State, a: Action)
    requires InSomeRun(s) && IsWrite(a) && Enabled(s, a)
    ensures InSomeRun(Step(s, a)) && IsWriterStep(s, Step(s, a))
  {
    hide InSomeRun;
    StepInRun(s, a);
  }

  // What the store's methods need from the invariant.

  lemma GetInRun(s: State)
    requires InSomeRun(s) && s.ui.GetReading? && s.ui.key in s.memory
    ensures s.ui.key in s.accepted && s.memory[s.ui.key] == s.accepted[s.ui.key]
  {
    RunInv(s);
  }

  lemma PutsInRun(s: State)
    requires InSomeRun(s)
    ensures s.puts < 100
  {
    RunInv(s);
  }

  lemma FlagsInRun(s: State)
    requires InSomeRun(s)
    ensures s.clearing ==> s.accepted == map[]
    ensures s.ui.PruneWanted? ==> !s.pruning
    ensures s.ui.PruneFlagged? ==> s.pruning
    ensures !s.clearing ==> !WriterClears(s.writer)
    ensures !s.pruning ==> !WriterPrunes(s.writer)
  {
    RunInv(s);
  }

  // ---- what every run guarantees ----

  /** What `get` reads past its flag check is the last accepted text for that key. */
  lemma GetIsNeverStale(s: State, n: nat)
    requires Reachable(s, n) && s.ui.GetReading? && s.ui.key in s.memory
    ensures s.ui.key in s.accepted && s.memory[s.ui.key] == s.accepted[s.ui.key]
  {
    ReachableInv(s, n);
  }

  /** The queue can always be run to its end. */
  lemma {:induction false} ReplayEnds(db: Table, q: seq<CacheWrite>) returns (d: Table)
    ensures Replays(db, q, d)
    decreases |q|
  {
    if q == [] {
      d := db;
    } else {
      var mid := db;
      match q[0] {
        case Put(k, t, at) => mid := db[k := Row(t, at)];
        case Clear => mid := map[];
        case Prune(now) => mid := CapExists(Aged(db, now));
      }
      assert Executes(db, q[0], mid);
      d := ReplayEnds(mid, q[1..]);
    }
  }

  lemma CapExists(db: Table) returns (d: Table)
    ensures Caps(db, d)
  {
    var kept := NewestRowsExist(db, CACHE_MAX_ROWS);
    d := Restrict(db, kept);
  }

  lemma ReplayExists(s: State) returns (d: Table)
    ensures FinalTable(s, d)
  {
    if s.writer.PruneAged? {
      var mid := CapExists(s.db);
      d := ReplayEnds(mid, s.queue);
    } else {
      d := ReplayEnds(s.db, s.queue);
    }
  }

  /** With both flags down the memory is the replay of the queue, whatever the table holds so far. */
  lemma MemoryIsReplay(s: State, n: nat, d: Table)
    requires Reachable(s, n) && !s.clearing && !s.pruning && !s.ui.PutInserted?
    requires FinalTable(s, d)
    ensures s.memory == Load(d)
  {
    ReachableInv(s, n);
    ReplayOfPuts(s.db, s.queue, d);
  }

  /** Once the first Prune is queued, the replayed table never exceeds the cap by more than the puts since the
      last prune, whatever call is running: the one that is being counted included, and at most 100. */
  lemma ReplayIsBounded(s: State, n: nat, d: Table)
    requires Reachable(s, n) && s.started
    requires FinalTable(s, d)
    ensures |d| <= 10_000 + Credit(s) && Credit(s) <= 100
    ensures s.ui.Idle? ==> |d| <= 10_000 + s.puts && s.puts < 100
  {
    ReachableInv(s, n);
    if s.writer.PruneAged? {
      var mid :| Caps(s.db, mid) && Replays(mid, s.queue, d);
      var kept :| NewestRows(s.db, CACHE_MAX_ROWS, kept) && mid == Restrict(s.db, kept);
      RestrictSize(s.db, kept);
      ReplayWithinBound(mid, s.queue, d);
    } else {
      ReplayWithinBound(s.db, s.queue, d);
    }
  }

  /** Once the first Prune has run, neither the table nor the memory ever passes 10_100 rows. */
  lemma StorageIsBounded(s: State, n: nat)
    requires Reachable(s, n) && s.trimmed
    ensures |s.db| <= 10_100 && |s.memory| <= 10_100
  {
    ReachableInv(s, n);
  }

  /** The compare-exchange of `schedule_prune` never fails. */
  lemma PruneCasSucceeds(s: State, n: nat)
    requires Reachable(s, n) && Enabled(s, PruneCas)
    ensures Step(s, PruneCas).pruning && Step(s, PruneCas).ui == PruneFlagged && !s.pruning
  {
    ReachableInv(s, n);
  }

  lemma {:induction false} NothingBehindClear(q: seq<CacheWrite>, i: nat)
    requires !ShapeOf(q).Malformed? && i < |q| && q[i].Clear?
    ensures i == |q| - 1
    decreases |q|
  {
    if q[0].Put? {
      NothingBehindClear(q[1..], i - 1);
    } else if q[0].Prune? && |q| > 1 {
      assert q[1..] == [Clear];
    }
  }

  /** A Prune is never queued behind a pending Clear, and neither is anything else. */
  lemma ClearIsLast(s: State, n: nat, i: nat)
    requires Reachable(s, n) && i < |s.queue| && s.queue[i].Clear?
    ensures i == |s.queue| - 1 && s.clearing
    ensures s.accepted == map[]
  {
    hide SizeInv, Settled;
    ReachableInv(s, n);
    NothingBehindClear(s.queue, i);
    ClearSeen(s.queue);
  }

  lemma {:induction false} ClearSeen(q: seq<CacheWrite>)
    requires !ShapeOf(q).Malformed? && |q| > 0 && q[|q| - 1].Clear?
    ensures ClearQueued(q)
    decreases |q|
  {
    if q[0].Put? {
      ClearSeen(q[1..]);
    }
  }

  // ---- the writer always catches up ----

  predicate IsWrite(a: Action) {
    IsPruneWrite(a) || IsClearWrite(a) || a.WritePut?
  }

  predicate Quiet(s: State) {
    s.writer.Ready? && s.queue == []
  }

  function Rank(s: State): nat {
    4 * |s.queue| +
    match s.writer
    case Ready => 0
    case PruneAged => 3
    case PruneCapped => 2
    case PruneLoaded => 1
    case ClearDeleted => 2
    case ClearWiped => 1
  }

  /** SQL can always answer: some set of newest rows exists for every cap. */
  lemma {:induction false} NewestRowsExist(db: Table, max: nat) returns (kept: set<CacheKey>)
    ensures NewestRows(db, max, kept)
    decreases |db|
  {
    if |db| <= max {
      kept := db.Keys;
    } else {
      var oldest := OldestRow(db);
      var rest := db - {oldest};
      assert rest.Keys == db.Keys - {oldest};
      kept := NewestRowsExist(rest, max);
    }
  }

  lemma {:induction false} OldestRow(db: Table) returns (k: CacheKey)
    requires |db| > 0
    ensures k in db && forall o :: o in db ==> db[k].updatedAt <= db[o].updatedAt
    decreases |db|
  {
    var first :| first in db;
    var rest := db - {first};
    assert rest.Keys == db.Keys - {first};
    assert forall o :: o in db ==> o == first || o in rest;
    k := first;
    if |rest| > 0 {
      var r := OldestRow(rest);
      if rest[r].updatedAt < db[first].updatedAt {
        k := r;
      }
    }
  }

  /** Every writer step brings the writer closer to being quiet. */
  lemma WriteLowersRank(s: State, a: Action)
    requires IsWrite(a) && Enabled(s, a)
    ensures Rank(Step(s, a)) < Rank(s)
  {
  }

  /** A writer that is not quiet always has a step to take. */
  lemma WriterIsNeverStuck(s: State) returns (a: Action)
    requires !Quiet(s)
    ensures IsWrite(a) && Enabled(s, a)
  {
    match s.writer {
      case Ready => a := if s.queue[0].Put? then WritePut else if s.queue[0].Clear? then WriteClearDelete
        else WritePruneAge;
      case PruneAged => var kept := NewestRowsExist(s.db, CACHE_MAX_ROWS); a := WritePruneCap(kept);
      case PruneCapped => a := WritePruneLoad;
      case PruneLoaded => a := WritePruneDone;
      case ClearDeleted => a := WriteClearWipe;
      case ClearWiped => a := WriteClearDone;
    }
  }

  /** When the writer is quiet and the UI is between calls, both flags are down and memory mirrors the table. */
  lemma QuietIsConsistent(s: State, n: nat)
    requires Reachable(s, n) && Quiet(s) && s.ui.Idle?
    ensures !s.clearing && !s.pruning && s.memory == Load(s.db) && Submap(s.memory, s.accepted)
  {
    ReachableInv(s, n);
  }

  // ---- the flag check of `get` is needed ----

  const KEY := CacheKey("google", "jpn", "kor", "text")

  lemma FirstPruneRunning() returns (s: State, n: nat)
    ensures Reachable(s, n)
    ensures s == State(map[KEY := Row("old", 0)], map[KEY := "old"], [], false, true, 0, Idle, PruneAged,
                       map[KEY := "old"], true, false)
  {
    var db: Table := map[KEY := Row("old", 0)];
    assert Load(db) == map[KEY := "old"];
    s, n := State(db, Load(db), [], false, false, 0, PruneWanted, Ready, Load(db), false, false), 0;
    s, n := Advance(s, n, PruneCas);
    s, n := Advance(s, n, PruneSend(0));
    assert s.queue == [Prune(0)];
    assert Aged(db, 0) == db;
    s, n := Advance(s, n, WritePruneAge);
  }

  lemma ClearDuringPrune() returns (s: State, n: nat)
    ensures Reachable(s, n)
    ensures s == State(map[KEY := Row("old", 0)], map[], [Clear], true, true, 0, Idle, PruneAged, map[], true, false)
  {
    hide Reachable;
    s, n := FirstPruneRunning();
    s, n := Advance(s, n, ClearReset);
    s, n := Advance(s, n, ClearCas);
    s, n := Advance(s, n, ClearMemory);
    s, n := Advance(s, n, ClearSend);
  }

  /** A Prune reloads a row although a Clear was already accepted: the reload is real, only hidden. */
  lemma StaleReloadHappens() returns (s: State, n: nat)
    ensures Reachable(s, n) && s.ui.Idle? && s.clearing && KEY in s.memory && KEY !in s.accepted
    ensures Step(s, GetCheck(KEY)).ui == Idle
  {
    hide Reachable;
    s, n := ClearDuringPrune();
    var db := s.db;
    assert db.Keys == {KEY} && |db| == 1;
    assert Restrict(db, {KEY}) == db;
    s, n := Advance(s, n, WritePruneCap({KEY}));
    s, n := Advance(s, n, WritePruneLoad);
  }

  lemma Advance(s: State, n: nat, a: Action) returns (t: State, m: nat)
    requires Reachable(s, n) && Enabled(s, a)
    ensures t == Step(s, a) && m == n + 1 && Reachable(t, m)
  {
    hide Step, Enabled;
    t, m := Step(s, a), n + 1;
    assert Reachable(t, n + 1);
  }
}

/** The store itself. Between any two shared actions of the UI thread the writer thread may take
    any number of steps; every action is a step of `CacheProtocol`. */
module TranslationCache {
  import opened Prelude
  import opened CacheProtocol

  class TranslationCacheStore {
    var memory: Memory
    var queue: seq<CacheWrite>
    var putsSincePrune: nat
    var clearInProgress: bool
    var pruneInProgress: bool
    // the writer thread: its table and its position in the running command
    var db: Table
    var writer: Writer
    // history and the UI thread's position
    ghost var ui: Ui
    ghost var accepted: Memory
    ghost var started: bool
    ghost var trimmed: bool

    ghost function St(): State
      reads this
    {
      State(db, memory, queue, clearInProgress, pruneInProgress, putsSincePrune, ui, writer, accepted, started, trimmed)
    }

    ghost predicate Valid()
      reads this
    {
      InSomeRun(St())
    }

    constructor Open(rows: Table)
      ensures Valid() && ui.Idle? && accepted == Load(rows) && started
    {
      db, memory, queue := rows, Load(rows), [];
      clearInProgress, pruneInProgress, putsSincePrune, writer := false, false, 0, Ready;
      ui, accepted, started, trimmed := PruneWanted, Load(rows), false, false;
      new;
      assert Reachable(St(), 0);
      SchedulePrune();
    }

    method Get(key: CacheKey) returns (r: Option<string>)
      requires Valid() && ui.Idle?
      modifies this
      ensures Valid() && ui.Idle? && accepted == old(accepted)
      ensures r.Some? ==> key in accepted && accepted[key] == r.value
      ensures !old(clearInProgress) && !old(pruneInProgress) ==>
        r == if key in old(memory) then Some(old(memory)[key]) else None
    {
      hide InSomeRun;
      WriterRuns();
      ghost var s := St();
      if clearInProgress {
        StepInRun(s, GetCheck(key));
        return None;
      }
      ui := GetReading(key);
      StepInRun(s, GetCheck(key));
      WriterRuns();
      r := if key in memory then Some(memory[key]) else None;
      if key in memory {
        GetInRun(St());
      }
      s := St();
      ui := Idle;
      StepInRun(s, GetRead);
    }

    /** A put is admitted when neither a clear nor a prune is in progress; otherwise it is dropped. Every
        hundredth one that is admitted queues a Prune. */
    method Put(key: CacheKey, translation: string, now: int) returns (ghost admitted: bool)
      requires Valid() && ui.Idle?
      modifies this
      ensures Valid() && ui.Idle?
      ensures accepted == if admitted then old(accepted)[key := translation] else old(accepted)
      ensures !old(clearInProgress) && !old(pruneInProgress) ==> admitted
      ensures putsSincePrune == if admitted then (old(putsSincePrune) + 1) % 100 else old(putsSincePrune)
      ensures admitted && putsSincePrune == 0 ==> pruneInProgress && |queue| > 0 && queue[|queue| - 1].Prune?
    {
      hide InSomeRun;
      PutsInRun(St());
      var passes := AdmitPut(key, translation);
      admitted := passes;
      if !passes {
        return;
      }
      StorePut(key, translation, now);
      WriterRuns();
      ghost var s := St();
      if putsSincePrune + 1 >= PUTS_PER_PRUNE {
        putsSincePrune := 0;
        ui := PruneWanted;
        StepInRun(s, PutCount);
        SchedulePrune();
      } else {
        putsSincePrune := putsSincePrune + 1;
        ui := Idle;
        StepInRun(s, PutCount);
      }
    }

    method AdmitPut(key: CacheKey, translation: string) returns (admitted: bool)
      requires Valid() && ui.Idle?
      modifies this
      ensures Valid() && accepted == old(accepted) && putsSincePrune == old(putsSincePrune)
      ensures ui == if admitted then PutAdmitted(key, translation) else Idle
      ensures !old(clearInProgress) && !old(pruneInProgress) ==> admitted
    {
      hide InSomeRun;
      WriterRuns();
      ghost var s := St();
      if clearInProgress {
        StepInRun(s, PutCheck(key, translation));
        return false;
      }
      ui := PutGate(key, translation);
      StepInRun(s, PutCheck(key, translation));
      WriterRuns();
      s := St();
      admitted := !pruneInProgress;
      ui := if admitted then PutAdmitted(key, translation) else Idle;
      StepInRun(s, PutGateCheck);
    }

    method StorePut(key: CacheKey, translation: string, now: int)
      requires Valid() && ui == PutAdmitted(key, translation)
      modifies this
      ensures Valid() && ui.PutSent? && accepted == old(accepted)[key := translation]
      ensures putsSincePrune == old(putsSincePrune)
    {
      hide InSomeRun;
      WriterRuns();
      ghost var s := St();
      memory := memory[key := translation];
      accepted, ui := accepted[key := translation], PutInserted(key, translation);
      StepInRun(s, PutInsert);
      WriterRuns();
      s := St();
      queue := queue + [CacheWrite.Put(key, translation, now)];
      ui := PutSent;
      StepInRun(s, PutSend(now));
    }

    method Clear()
      requires Valid() && ui.Idle?
      modifies this
      ensures Valid() && ui.Idle? && accepted == map[] && putsSincePrune == 0
    {
      hide InSomeRun;
      ResetPuts();
      WriterRuns();
      ghost var s := St();
      if clearInProgress {
        FlagsInRun(s);
        ui := Idle;
        StepInRun(s, ClearCas);
        return;
      }
      clearInProgress := true;
      accepted, ui := map[], ClearFlagged;
      StepInRun(s, ClearCas);
      WipeAndSend();
    }

    method ResetPuts()
      requires Valid() && ui.Idle?
      modifies this
      ensures Valid() && ui.ClearWanted? && putsSincePrune == 0
    {
      hide InSomeRun;
      WriterRuns();
      ghost var s := St();
      putsSincePrune := 0;
      ui := ClearWanted;
      StepInRun(s, ClearReset);
    }

    method WipeAndSend()
      requires Valid() && ui.ClearFlagged?
      modifies this
      ensures Valid() && ui.Idle? && accepted == old(accepted) && putsSincePrune == old(putsSincePrune)
    {
      hide InSomeRun;
      WriterRuns();
      ghost var s := St();
      memory := map[];
      ui := ClearEmptied;
      StepInRun(s, ClearMemory);
      WriterRuns();
      s := St();
      queue := queue + [CacheWrite.Clear];
      ui := Idle;
      StepInRun(s, ClearSend);
    }

    method SchedulePrune()
      requires Valid() && ui.PruneWanted?
      modifies this
      ensures Valid() && ui.Idle? && accepted == old(accepted) && started && pruneInProgress
      ensures putsSincePrune == old(putsSincePrune)
      ensures |queue| > 0 && queue[|queue| - 1].Prune?
    {
      hide InSomeRun;
      WriterRuns();
      ghost var s := St();
      FlagsInRun(s);
      if pruneInProgress {
        return;
      }
      pruneInProgress := true;
      ui := PruneFlagged;
      StepInRun(s, PruneCas);
      WriterRuns();
      FlagsInRun(St());
      s := St();
      var now: int := *;
      queue := queue + [CacheWrite.Prune(now)];
      started, ui := true, Idle;
      StepInRun(s, PruneSend(now));
    }

    /** Any number of steps of the writer thread. */
    method WriterRuns()
      requires Valid()
      modifies this`memory, this`queue, this`clearInProgress, this`pruneInProgress, this`db, this`writer, this`trimmed
      ensures Valid()
      ensures !old(clearInProgress) ==> !clearInProgress
      ensures !old(pruneInProgress) ==> !pruneInProgress
      ensures !old(clearInProgress) && !old(pruneInProgress) ==> memory == old(memory)
    {
      var count: nat :| true;
      for i := 0 to count
        invariant Valid()
        invariant !old(clearInProgress) ==> !clearInProgress
        invariant !old(pruneInProgress) ==> !pruneInProgress
        invariant !old(clearInProgress) && !old(pruneInProgress) ==> memory == old(memory)
      {
        WriterStep();
      }
    }

    /** One atomic action of the writer thread's command loop. */
    method WriterStep()
      requires Valid()
      modifies this`memory, this`queue, this`clearInProgress, this`pruneInProgress, this`db, this`writer, this`trimmed
      ensures Valid()
      ensures !old(clearInProgress) ==> !clearInProgress
      ensures !old(pruneInProgress) ==> !pruneInProgress
      ensures !old(clearInProgress) && !old(pruneInProgress) ==> memory == old(memory)
      ensures if old(Quiet(St())) then St() == old(St()) else IsWriterStep(old(St()), St())
    {
      hide IsWriterStep, InSomeRun;
      FlagsInRun(St());
      if writer.Ready? {
        if queue != [] {
          TakeCommand();
        }
      } else if writer.PruneAged? || writer.PruneCapped? || writer.PruneLoaded? {
        ContinuePrune();
      } else {
        ContinueClear();
      }
    }

    method TakeCommand()
      requires Valid() && writer.Ready? && queue != []
      modifies this`queue, this`db, this`writer
      ensures Valid() && IsWriterStep(old(St()), St())
    {
      hide InSomeRun, IsWriterStep;
      ghost var s := St();
      var command := queue[0];
      queue := queue[1..];
      if command.Put? {
        db := db[command.key := Row(command.translation, command.updatedAt)];
        WriteInRun(s, WritePut);
      } else {
        StartSweep(s, command);
      }
    }

    method StartSweep(ghost s: State, command: CacheWrite)
      requires InSomeRun(s) && writer.Ready? && s.queue != [] && command == s.queue[0] && !command.Put?
      requires St() == s.(queue := s.queue[1..])
      modifies this`db, this`writer
      ensures Valid() && IsWriterStep(s, St())
    {
      hide InSomeRun, IsWriterStep;
      if command.Clear? {
        db, writer := map[], ClearDeleted;
        WriteInRun(s, WriteClearDelete);
      } else {
        db, writer := Aged(db, command.now), PruneAged;
        WriteInRun(s, WritePruneAge);
      }
    }

    method ContinuePrune()
      requires Valid() && (writer.PruneAged? || writer.PruneCapped? || writer.PruneLoaded?)
      modifies this`memory, this`pruneInProgress, this`db, this`writer, this`trimmed
      ensures Valid() && (!old(pruneInProgress) ==> !pruneInProgress) && IsWriterStep(old(St()), St())
    {
      hide InSomeRun, IsWriterStep;
      ghost var s := St();
      if writer.PruneAged? {
        CapRows();
      } else if writer.PruneCapped? {
        memory, writer, trimmed := Load(db), PruneLoaded, true;
        WriteInRun(s, WritePruneLoad);
      } else {
        pruneInProgress, writer := false, Ready;
        WriteInRun(s, WritePruneDone);
      }
    }

    method CapRows()
      requires Valid() && writer.PruneAged?
      modifies this`db, this`writer
      ensures Valid() && IsWriterStep(old(St()), St())
    {
      hide InSomeRun, IsWriterStep;
      ghost var s := St();
      ghost var answer := NewestRowsExist(db, CACHE_MAX_ROWS);
      var kept: set<CacheKey> :| NewestRows(db, CACHE_MAX_ROWS, kept);
      db, writer := Restrict(db, kept), PruneCapped;
      WriteInRun(s, WritePruneCap(kept));
    }

    method ContinueClear()
      requires Valid() && (writer.ClearDeleted? || writer.ClearWiped?)
      modifies this`memory, this`clearInProgress, this`writer
      ensures Valid() && (!old(clearInProgress) ==> !clearInProgress) && IsWriterStep(old(St()), St())
    {
      hide InSomeRun, IsWriterStep;
      ghost var s := St();
      if writer.ClearDeleted? {
        memory, writer := map[], ClearWiped;
        WriteInRun(s, WriteClearWipe);
      } else {
        clearInProgress, writer := false, Ready;
        WriteInRun(s, WriteClearDone);
      }
    }
  }

  /** The store `open` returns when the database cannot be opened: no writer, no table. */
  class DisconnectedStore {
    var memory: Memory

    constructor ()
      ensures memory == map[]
    {
      memory := map[];
    }

    method Get(key: CacheKey) returns (r: Option<string>)
      ensures r == if key in memory then Some(memory[key]) else None
    {
      r := if key in memory then Some(memory[key]) else None;
    }

    method Put(key: CacheKey, translation: string)
      modifies this
      ensures memory == old(memory)[key := translation]
    {
      memory := memory[key := translation];
    }

    method Clear()
    {
    }

    method Run(calls: seq<StoreCall>)
      requires memory == map[]
      modifies this
      ensures forall key :: key in memory <==> !NeverPut(calls, key)
      ensures forall key :: key in memory ==> IsLastPut(calls, key, memory[key])
    {
      for i := 0 to |calls|
        invariant forall key :: key in memory <==> !NeverPut(calls[..i], key)
        invariant forall key :: key in memory ==> IsLastPut(calls[..i], key, memory[key])
      {
        match calls[i] {
          case PutCall(key, translation) => Put(key, translation);
          case ClearCall => Clear();
        }
        assert calls[..i + 1] == calls[..i] + [calls[i]];
        forall key
          ensures key in memory <==> !NeverPut(calls[..i + 1], key)
          ensures key in memory ==> IsLastPut(calls[..i + 1], key, memory[key])
        {
          OneMoreCall(calls[..i], calls[i], key);
        }
      }
      assert calls[..|calls|] == calls;
    }

    /** The documentation promises that such a store never answers. It answers nothing exactly for the
        keys that were never put, and otherwise the text put last, whatever was cleared since. */
    method AnswerAfter(calls: seq<StoreCall>, key: CacheKey) returns (r: Option<string>)
      requires memory == map[]
      modifies this
      ensures r.None? <==> NeverPut(calls, key)
      ensures r.Some? ==> IsLastPut(calls, key, r.value)
    {
      Run(calls);
      r := Get(key);
    }
  }

  datatype StoreCall = PutCall(key: CacheKey, translation: string) | ClearCall

  predicate NeverPut(calls: seq<StoreCall>, key: CacheKey) {
    forall i :: 0 <= i < |calls| ==> !(calls[i].PutCall? && calls[i].key == key)
  }

  ghost predicate IsLastPut(calls: seq<StoreCall>, key: CacheKey, translation: string) {
    exists i :: 0 <= i < |calls| && calls[i] == PutCall(key, translation) && NeverPut(calls[i + 1..], key)
  }

  lemma OneMoreCall(calls: seq<StoreCall>, call: StoreCall, key: CacheKey)
    ensures var puts := call.PutCall? && call.key == key;
      && (NeverPut(calls + [call], key) <==> NeverPut(calls, key) && !puts)
      && (puts ==> IsLastPut(calls + [call], key, call.translation))
      && (!puts ==> forall t :: IsLastPut(calls, key, t) ==> IsLastPut(calls + [call], key, t))
  {
    NeverPutSnoc(calls, call, key);
    hide NeverPut, IsLastPut;
    if call.PutCall? && call.key == key {
      PutIsLast(calls, call);
    } else {
      forall t | IsLastPut(calls, key, t)
        ensures IsLastPut(calls + [call], key, t)
      {
        StaysLastPut(calls, call, key, t);
      }
    }
  }

  lemma NeverPutSnoc(calls: seq<StoreCall>, call: StoreCall, key: CacheKey)
    ensures NeverPut(calls + [call], key) <==> NeverPut(calls, key) && !(call.PutCall? && call.key == key)
  {
    var more := calls + [call];
    assert more[|calls|] == call && forall i :: 0 <= i < |calls| ==> more[i] == calls[i];
  }

  lemma PutIsLast(calls: seq<StoreCall>, call: StoreCall)
    requires call.PutCall?
    ensures IsLastPut(calls + [call], call.key, call.translation)
  {
    var more, n := calls + [call], |calls|;
    assert more[n] == call && more[n + 1..] == [];
  }

  lemma StaysLastPut(calls: seq<StoreCall>, call: StoreCall, key: CacheKey, t: string)
    requires IsLastPut(calls, key, t) && !(call.PutCall? && call.key == key)
    ensures IsLastPut(calls + [call], key, t)
  {
    hide NeverPut;
    var i :| 0 <= i < |calls| && calls[i] == PutCall(key, t) && NeverPut(calls[i + 1..], key);
    NeverPutSnoc(calls[i + 1..], call, key);
    var more := calls + [call];
    assert more[i + 1..] == calls[i + 1..] + [call] && more[i] == calls[i];
  }
}
