/** The history of translations, bounded by entries and by text. */
module Backlog {
  import opened Prelude
  import opened Utf8

  const MAX_BACKLOG_ENTRIES: nat := 1_000
  const MAX_BACKLOG_TEXT_BYTES: nat := 4 * 1024 * 1024

  datatype LogEntry = LogEntry(name: Option<string>, original: string, translation: Option<string>)

  function OptionBytes(text: Option<string>): nat {
    if text.Some? then |EncodeAll(text.value)| else 0
  }

  function EntryTextBytes(entry: LogEntry): nat {
    OptionBytes(entry.name) + |EncodeAll(entry.original)| + OptionBytes(entry.translation)
  }

  function TotalBytes(entries: seq<LogEntry>): nat {
    if entries == [] then 0 else EntryTextBytes(entries[0]) + TotalBytes(entries[1..])
  }

  /** What the store may hold: few enough entries, and little enough text or only one entry. */
  predicate Fits(entries: seq<LogEntry>) {
    |entries| <= MAX_BACKLOG_ENTRIES && (TotalBytes(entries) <= MAX_BACKLOG_TEXT_BYTES || |entries| <= 1)
  }

  /** All text of the entries: names, originals and translations. */
  function AllText(entries: seq<LogEntry>): seq<byte> {
    if entries == [] then [] else
      var e := entries[|entries| - 1];
      AllText(entries[..|entries| - 1])
      + (match e.name case None => [] case Some(name) => EncodeAll(name)) + EncodeAll(e.original)
      + (match e.translation case None => [] case Some(translation) => EncodeAll(translation))
  }

  lemma {:induction false} TotalIsText(entries: seq<LogEntry>)
    ensures TotalBytes(entries) == |AllText(entries)|
    decreases |entries|
  {
    if entries != [] {
      var n := |entries| - 1;
      TotalIsText(entries[..n]);
      TotalConcat(entries[..n], [entries[n]]);
      TotalOfOne(entries[n]);
      assert entries == entries[..n] + [entries[n]];
    }
  }

  /** The bounds in numbers: 1,000 entries, and 4 MiB of text unless there is only one. */
  lemma FitsIff(entries: seq<LogEntry>)
    ensures Fits(entries) <==> |entries| <= 1_000 && (|AllText(entries)| <= 4_194_304 || |entries| <= 1)
  {
    TotalIsText(entries);
  }

  lemma {:induction false} TotalConcat(a: seq<LogEntry>, b: seq<LogEntry>)
    ensures TotalBytes(a + b) == TotalBytes(a) + TotalBytes(b)
  {
    hide EntryTextBytes;
    if a == [] {
      assert a + b == b;
    } else {
      assert (a + b)[1..] == a[1..] + b;
      TotalConcat(a[1..], b);
    }
  }

  lemma TotalOfOne(entry: LogEntry)
    ensures TotalBytes([entry]) == EntryTextBytes(entry)
  {
    assert [entry][1..] == [];
  }

  /** Whatever follows a fitting rest fits as well. */
  lemma SuffixFits(entries: seq<LogEntry>, n: nat, m: nat)
    requires n <= m <= |entries| && Fits(entries[n..])
    ensures Fits(entries[m..])
  {
    hide EntryTextBytes;
    assert entries[n..] == entries[n..m] + entries[m..];
    TotalConcat(entries[n..m], entries[m..]);
  }

  class BacklogStore {
    var entries: seq<LogEntry>
    var textBytes: nat

    ghost predicate Valid()
      reads this
    {
      textBytes == TotalBytes(entries) && Fits(entries)
    }

    constructor ()
      ensures Valid() && entries == []
    {
      entries, textBytes := [], 0;
    }

    /** Keeps the longest rest of the history that fits, and always the new entry. */
    method Push(entry: LogEntry) returns (evicted: bool)
      requires Valid()
      modifies this
      ensures Valid() && entries != [] && entries[|entries| - 1] == entry
      ensures evicted <==> |entries| < |old(entries)| + 1
      ensures entries == Kept(old(entries) + [entry])
    {
      hide EntryTextBytes, TotalBytes;
      ghost var all := entries + [entry];
      TotalConcat(entries, [entry]);
      TotalOfOne(entry);
      textBytes := textBytes + EntryTextBytes(entry);
      entries := entries + [entry];
      ghost var n: nat := 0;
      evicted := false;
      while |entries| > MAX_BACKLOG_ENTRIES || (textBytes > MAX_BACKLOG_TEXT_BYTES && |entries| > 1)
        invariant n < |all| && entries == all[n..] && textBytes == TotalBytes(entries)
        invariant forall m: nat :: m < n ==> !Fits(all[m..])
        invariant evicted <==> n > 0
        decreases |entries|
      {
        var removed := entries[0];
        assert entries == [removed] + entries[1..];
        TotalConcat([removed], entries[1..]);
        TotalOfOne(removed);
        assert all[n + 1..] == entries[1..];
        entries := entries[1..];
        textBytes := textBytes - EntryTextBytes(removed);
        n := n + 1;
        evicted := true;
      }
      LongestRestIsUnique(all, n, KeptFrom(all, 0));
    }

    method Clear()
      modifies this
      ensures Valid() && entries == []
    {
      entries, textBytes := [], 0;
    }
  }

  /** The result of a push is determined: no other rest of the history is the longest that fits. */
  lemma LongestRestIsUnique(all: seq<LogEntry>, n: nat, m: nat)
    requires n <= |all| && m <= |all| && Fits(all[n..]) && Fits(all[m..])
    requires forall k: nat :: k < n ==> !Fits(all[k..])
    requires forall k: nat :: k < m ==> !Fits(all[k..])
    ensures n == m
  {
  }

  /** The rest of a history that the store keeps after all of it was pushed. */
  function KeptFrom(all: seq<LogEntry>, n: nat): (r: nat)
    requires n <= |all|
    ensures n <= r <= |all| && Fits(all[r..]) && forall k: nat :: n <= k < r ==> !Fits(all[k..])
    decreases |all| - n
  {
    if Fits(all[n..]) then n else KeptFrom(all, n + 1)
  }

  /** The longest rest of a history that fits. */
  function Kept(all: seq<LogEntry>): seq<LogEntry> {
    all[KeptFrom(all, 0)..]
  }

  /** Evicting step by step forgets nothing that evicting once at the end would have kept. */
  lemma EvictionComposes(before: seq<LogEntry>, entry: LogEntry)
    ensures Kept(Kept(before) + [entry]) == Kept(before + [entry])
  {
    hide EntryTextBytes, TotalBytes;
    var n := KeptFrom(before, 0);
    var all, kept := before + [entry], before[n..] + [entry];
    assert kept == all[n..];
    var r := KeptFrom(kept, 0);
    assert kept[r..] == all[n + r..];
    forall k: nat | k < n + r
      ensures !Fits(all[k..])
    {
      if k < n {
        assert all[k..] == before[k..] + [entry];
        DroppedStaysDropped(before[k..], entry);
      } else {
        assert all[k..] == kept[k - n..];
      }
    }
    LongestRestIsUnique(all, n + r, KeptFrom(all, 0));
  }

  lemma DroppedStaysDropped(rest: seq<LogEntry>, entry: LogEntry)
    requires !Fits(rest)
    ensures !Fits(rest + [entry])
  {
    hide EntryTextBytes;
    TotalConcat(rest, [entry]);
  }

  /** Any run of pushes leaves the longest fitting rest of everything that was pushed. */
  method PushAll(store: BacklogStore, history: seq<LogEntry>)
    requires store.Valid() && store.entries == []
    modifies store
    ensures store.Valid() && store.entries == Kept(history)
  {
    hide EntryTextBytes, TotalBytes, Kept;
    NothingKept();
    for i := 0 to |history|
      invariant store.Valid() && store.entries == Kept(history[..i])
    {
      var _ := store.Push(history[i]);
      EvictionComposes(history[..i], history[i]);
      assert history[..i + 1] == history[..i] + [history[i]];
    }
    assert history[..|history|] == history;
  }

  lemma NothingKept()
    ensures Kept([]) == []
  {
  }
}
