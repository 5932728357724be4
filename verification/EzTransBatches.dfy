/** Cutting the texts of a window into batches for the EzTrans helper processes. */
module EzTransBatches {
  import opened Prelude

  const BATCH_MAX_LINES: nat := 256
  const BATCH_MAX_CHARS: nat := 96 * 1024

  /** The characters of a batch, one separator between neighbours included. */
  function Weight(batch: seq<string>): nat {
    if batch == [] then 0 else Weight(batch[..|batch| - 1]) + Separator(batch[..|batch| - 1]) + |batch[|batch| - 1]|
  }

  function Separator(batch: seq<string>): nat {
    if batch == [] then 0 else 1
  }

  function TotalChars(texts: seq<string>): nat {
    if texts == [] then 0 else |texts[0]| + 1 + TotalChars(texts[1..])
  }

  function DivCeil(a: nat, b: nat): nat
    requires b > 0
  {
    (a + b - 1) / b
  }

  function Clamp(x: nat, low: nat, high: nat): nat
    requires low <= high
  {
    if x < low then low else if x > high then high else x
  }

  function TargetLines(texts: seq<string>, processCount: nat): nat {
    Clamp(DivCeil(|texts|, Max(processCount, 1)), 1, BATCH_MAX_LINES)
  }

  function TargetChars(texts: seq<string>, processCount: nat): nat {
    Clamp(DivCeil(TotalChars(texts), Max(processCount, 1)), 1, BATCH_MAX_CHARS)
  }

  /** The batch is closed before `next` is added. */
  predicate Exceeds(batch: seq<string>, next: string, lines: nat, chars: nat) {
    && batch != []
    && (|batch| >= lines || Weight(batch) + 1 + |next| > chars
        || |batch| >= BATCH_MAX_LINES || Weight(batch) + 1 + |next| > BATCH_MAX_CHARS)
  }

  predicate Fits(batch: seq<string>, lines: nat, chars: nat) {
    batch != [] && forall k :: 0 < k < |batch| ==> !Exceeds(batch[..k], batch[k], lines, chars)
  }

  /** Each batch is as long as it may be: nothing could be added to it, or nothing is left. */
  predicate IsGreedy(batches: seq<seq<string>>, lines: nat, chars: nat) {
    && (forall i :: 0 <= i < |batches| ==> Fits(batches[i], lines, chars))
    && (forall i :: 0 <= i < |batches| - 1 ==> Exceeds(batches[i], batches[i + 1][0], lines, chars))
  }

  predicate IsPartition(texts: seq<string>, processCount: nat, batches: seq<seq<string>>) {
    Flatten(batches) == texts && IsGreedy(batches, TargetLines(texts, processCount), TargetChars(texts, processCount))
  }

  /** The texts so far are cut greedily, the batch that is still open included. */
  ghost predicate CutSoFar(texts: seq<string>, batches: seq<seq<string>>, current: seq<string>, lines: nat,
                           chars: nat) {
    && Flatten(batches) + current == texts
    && if texts == [] then batches == [] && current == []
       else current != [] && IsGreedy(batches + [current], lines, chars)
  }

  method PartitionBatches(originals: seq<string>, processCount: nat) returns (batches: seq<seq<string>>)
    ensures IsPartition(originals, processCount, batches)
  {
    if originals == [] {
      return [];
    }
    var targetLines, targetChars := TargetLines(originals, processCount), TargetChars(originals, processCount);
    batches := [];
    var current: seq<string>, currentChars := [], 0;
    NothingBatched(targetLines, targetChars);
    hide Flatten, Weight, Exceeds, IsGreedy, CutSoFar;
    for i := 0 to |originals|
      invariant CutSoFar(originals[..i], batches, current, targetLines, targetChars)
      invariant currentChars == Weight(current)
    {
      var original := originals[i];
      AddText(originals[..i], batches, current, original, targetLines, targetChars);
      if Exceeds(current, original, targetLines, targetChars) {
        batches := batches + [current];
        current, currentChars := [], 0;
      }
      Append(current, original);
      assert originals[..i + 1] == originals[..i] + [original];
      currentChars := currentChars + Separator(current) + |original|;
      current := current + [original];
    }
    assert originals[..|originals|] == originals;
    CutEnds(originals, batches, current, targetLines, targetChars);
    batches := batches + [current];
  }

  lemma NothingBatched(lines: nat, chars: nat)
    ensures CutSoFar([], [], [], lines, chars) && Weight([]) == 0
  {
  }

  /** A text goes into the open batch, or closes it and opens the next one. */
  lemma AddText(texts: seq<string>, batches: seq<seq<string>>, current: seq<string>, text: string, lines: nat,
                chars: nat)
    requires CutSoFar(texts, batches, current, lines, chars)
    ensures if Exceeds(current, text, lines, chars) then
              CutSoFar(texts + [text], batches + [current], [] + [text], lines, chars)
            else CutSoFar(texts + [text], batches, current + [text], lines, chars)
  {
    hide Flatten, Weight, IsGreedy;
    if current == [] {
      assert [] + [text] == [text] && batches + [[text]] == [[text]];
      StartFirst(text, lines, chars);
      Associate(Flatten(batches), current, [text]);
    } else if Exceeds(current, text, lines, chars) {
      Close(batches, current, text, lines, chars);
    } else {
      Extend(batches, current, text, lines, chars);
      Associate(Flatten(batches), current, [text]);
    }
  }

  lemma CutEnds(texts: seq<string>, batches: seq<seq<string>>, current: seq<string>, lines: nat, chars: nat)
    requires texts != [] && CutSoFar(texts, batches, current, lines, chars)
    ensures Flatten(batches + [current]) == texts && IsGreedy(batches + [current], lines, chars)
  {
    FlattenSnoc(batches, current);
  }

  lemma Append(batch: seq<string>, text: string)
    ensures Weight(batch + [text]) == Weight(batch) + Separator(batch) + |text|
  {
    assert (batch + [text])[..|batch|] == batch;
  }

  lemma StartFirst(text: string, lines: nat, chars: nat)
    ensures IsGreedy([[text]], lines, chars)
  {
  }

  lemma Close(batches: seq<seq<string>>, current: seq<string>, next: string, lines: nat, chars: nat)
    requires current != [] && IsGreedy(batches + [current], lines, chars) && Exceeds(current, next, lines, chars)
    ensures Flatten(batches + [current]) == Flatten(batches) + current
    ensures IsGreedy((batches + [current]) + [[] + [next]], lines, chars)
  {
    hide Weight, Exceeds, Flatten;
    FlattenSnoc(batches, current);
    var a, b := batches + [current], (batches + [current]) + [[] + [next]];
    assert forall i :: 0 <= i < |a| ==> b[i] == a[i];
    assert b[|a|] == [next] && Fits([next], lines, chars);
  }

  lemma Extend(batches: seq<seq<string>>, current: seq<string>, next: string, lines: nat, chars: nat)
    requires current != [] && IsGreedy(batches + [current], lines, chars) && !Exceeds(current, next, lines, chars)
    ensures IsGreedy(batches + [current + [next]], lines, chars)
  {
    hide Weight, Exceeds;
    var a, b, longer := batches + [current], batches + [current + [next]], current + [next];
    assert Fits(a[|batches|], lines, chars);
    forall k | 0 < k < |longer|
      ensures !Exceeds(longer[..k], longer[k], lines, chars)
    {
      if k < |current| {
        assert longer[..k] == current[..k];
      } else {
        assert longer[..k] == current;
      }
    }
    assert forall i :: 0 <= i < |batches| ==> b[i] == a[i] && Fits(a[i], lines, chars);
    if |batches| > 0 {
      assert Exceeds(a[|batches| - 1], a[|batches|][0], lines, chars);
    }
  }

  // ---- the limits, in numbers ----

  /** The batch as one text, a single character between neighbours. */
  function Text(batch: seq<string>): string {
    if batch == [] then "" else if |batch| == 1 then batch[0]
    else Text(batch[..|batch| - 1]) + "\n" + batch[|batch| - 1]
  }

  lemma {:induction false} WeightIsLength(batch: seq<string>)
    ensures Weight(batch) == |Text(batch)|
    decreases |batch|
  {
    if |batch| > 1 {
      WeightIsLength(batch[..|batch| - 1]);
    } else if |batch| == 1 {
      assert Weight(batch[..0]) == 0;
    }
  }

  /** The sum of the lengths. */
  function Lengths(texts: seq<string>): nat {
    if texts == [] then 0 else Lengths(texts[..|texts| - 1]) + |texts[|texts| - 1]|
  }

  lemma {:induction false} TotalIsSum(texts: seq<string>)
    ensures TotalChars(texts) == Lengths(texts) + |texts|
    decreases |texts|
  {
    if texts != [] {
      TotalIsSum(texts[1..]);
      LengthsFront(texts);
    }
  }

  lemma {:induction false} LengthsFront(texts: seq<string>)
    requires texts != []
    ensures Lengths(texts) == |texts[0]| + Lengths(texts[1..])
    decreases |texts|
  {
    if |texts| > 1 {
      var n := |texts| - 1;
      LengthsFront(texts[..n]);
      assert texts[..n][1..] == texts[1..][..n - 1];
    }
  }

  /** `target` is the least number that is enough for `whole` in `processes` parts, but between 1 and `most`. */
  ghost predicate IsShare(target: nat, whole: nat, processes: nat, most: nat) {
    && 1 <= target <= most
    && (target == most || processes * target >= whole)
    && (target == 1 || processes * (target - 1) < whole)
  }

  lemma ShareOfClamped(whole: nat, processes: nat, most: nat)
    requires processes >= 1 && most >= 1
    ensures IsShare(Clamp(DivCeil(whole, processes), 1, most), whole, processes, most)
  {
    var share := DivCeil(whole, processes);
    assert processes * share >= whole && (share > 0 ==> processes * (share - 1) < whole);
    if share > most {
      assert processes * (most - 1) <= processes * (share - 1);
    }
  }

  /** Batches are meant to keep every process busy, within 256 lines and 96 Ki characters. */
  lemma TargetsAreShares(texts: seq<string>, processCount: nat)
    ensures var processes := if processCount == 0 then 1 else processCount;
      && IsShare(TargetLines(texts, processCount), |texts|, processes, 256)
      && IsShare(TargetChars(texts, processCount), Lengths(texts) + |texts|, processes, 98_304)
  {
    TotalIsSum(texts);
    ShareOfClamped(|texts|, Max(processCount, 1), BATCH_MAX_LINES);
    ShareOfClamped(TotalChars(texts), Max(processCount, 1), BATCH_MAX_CHARS);
    hide TotalChars, Lengths;
  }

  /** A batch is closed only where the next text does not fit: it has as many lines as it may have, or would
      become longer than it may be. */
  lemma ClosedOnlyIfFull(texts: seq<string>, processCount: nat, batches: seq<seq<string>>, i: nat)
    requires IsPartition(texts, processCount, batches) && i + 1 < |batches|
    ensures batches[i] != [] && batches[i + 1] != []
    ensures |batches[i]| == TargetLines(texts, processCount)
         || |Text(batches[i] + [batches[i + 1][0]])| > TargetChars(texts, processCount)
  {
    BatchLimits(texts, processCount, batches, i);
    BatchLimits(texts, processCount, batches, i + 1);
    TargetsAreShares(texts, processCount);
    hide TargetLines, TargetChars;
    var batch, next := batches[i], batches[i + 1][0];
    assert Exceeds(batch, next, TargetLines(texts, processCount), TargetChars(texts, processCount));
    Append(batch, next);
    WeightIsLength(batch + [next]);
    hide Weight, Text;
  }

  /** And it never is: every batch of two or more texts is no longer than it may be. */
  lemma BatchTextLimit(texts: seq<string>, processCount: nat, batches: seq<seq<string>>, i: nat)
    requires IsPartition(texts, processCount, batches) && i < |batches|
    ensures |batches[i]| <= TargetLines(texts, processCount)
    ensures |batches[i]| >= 2 ==> |Text(batches[i])| <= TargetChars(texts, processCount)
  {
    BatchLimits(texts, processCount, batches, i);
    WeightIsLength(batches[i]);
  }

  // ---- what a partition guarantees ----

  /** Limits of every batch: never more lines than the target, and within the character target
      unless the batch is a single line. */
  lemma BatchLimits(texts: seq<string>, processCount: nat, batches: seq<seq<string>>, i: nat)
    requires IsPartition(texts, processCount, batches) && i < |batches|
    ensures 0 < |batches[i]| <= TargetLines(texts, processCount) <= BATCH_MAX_LINES
    ensures |batches[i]| >= 2 ==> Weight(batches[i]) <= TargetChars(texts, processCount) <= BATCH_MAX_CHARS
  {
    var batch := batches[i];
    assert Fits(batch, TargetLines(texts, processCount), TargetChars(texts, processCount));
    if |batch| >= 2 {
      var k := |batch| - 1;
      assert !Exceeds(batch[..k], batch[k], TargetLines(texts, processCount), TargetChars(texts, processCount));
      Append(batch[..k], batch[k]);
      assert batch == batch[..k] + [batch[k]];
    }
  }

  lemma FirstBatch(batches: seq<seq<string>>, lines: nat, chars: nat)
    requires batches != [] && IsGreedy(batches, lines, chars)
    ensures IsGreedy(batches[1..], lines, chars)
    ensures Flatten(batches) == batches[0] + Flatten(batches[1..])
    ensures Flatten(batches[1..]) != [] ==> Exceeds(batches[0], Flatten(batches[1..])[0], lines, chars)
  {
    hide Weight, Exceeds;
    var rest := batches[1..];
    assert forall i :: 0 <= i < |rest| ==> rest[i] == batches[i + 1];
    if rest != [] {
      assert Fits(rest[0], lines, chars);
      assert Flatten(rest)[0] == rest[0][0];
    }
  }

  /** The partition is determined by its properties: two greedy cuts of the same texts are equal. */
  lemma {:induction false} GreedyIsUnique(a: seq<seq<string>>, b: seq<seq<string>>, lines: nat, chars: nat)
    requires IsGreedy(a, lines, chars) && IsGreedy(b, lines, chars) && Flatten(a) == Flatten(b)
    ensures a == b
  {
    hide Weight, Exceeds;
    if a == [] || b == [] {
      NonEmptyBatches(a, lines, chars);
      NonEmptyBatches(b, lines, chars);
    } else {
      FirstBatch(a, lines, chars);
      FirstBatch(b, lines, chars);
      assert Fits(a[0], lines, chars) && Fits(b[0], lines, chars);
      if |a[0]| < |b[0]| {
        NextAfterShorter(a[0], Flatten(a[1..]), b[0], Flatten(b[1..]));
        assert false;
      } else if |b[0]| < |a[0]| {
        NextAfterShorter(b[0], Flatten(b[1..]), a[0], Flatten(a[1..]));
        assert false;
      }
      assert Flatten(a)[..|a[0]|] == a[0] && Flatten(b)[..|b[0]|] == b[0];
      assert Flatten(a)[|a[0]|..] == Flatten(a[1..]) && Flatten(b)[|b[0]|..] == Flatten(b[1..]);
      GreedyIsUnique(a[1..], b[1..], lines, chars);
      assert a == [a[0]] + a[1..] && b == [b[0]] + b[1..];
    }
  }

  lemma NonEmptyBatches(batches: seq<seq<string>>, lines: nat, chars: nat)
    requires IsGreedy(batches, lines, chars)
    ensures batches != [] ==> Flatten(batches) != []
  {
    if batches != [] {
      assert Fits(batches[0], lines, chars);
    }
  }

  /** Where a shorter first piece ends, the longer one goes on with the next text. */
  lemma NextAfterShorter(a: seq<string>, restA: seq<string>, b: seq<string>, restB: seq<string>)
    requires a + restA == b + restB && |a| < |b|
    ensures restA != [] && b[..|a|] == a && b[|a|] == restA[0]
  {
    var whole := a + restA;
    assert whole[..|a|] == a && whole[|a|] == restA[0];
    assert b == whole[..|b|];
  }
}
