/** Names for output files: comparison keys, default names without collisions, the job check. */
module OutputPaths {
  import opened Prelude

  datatype Component = CurDir | ParentDir | Normal(name: string)

  /** A path as its components; `root` is the prefix with its backslash, absent from a relative path. */
  datatype Path = Path(root: Option<string>, parts: seq<Component>) {
    predicate IsEmpty() {
      root.None? && parts == []
    }

    function Parent(): Path {
      if parts == [] then Path(None, []) else Path(root, parts[..|parts| - 1])
    }

    function FileName(): (r: string) {
      if parts != [] && parts[|parts| - 1].Normal? then parts[|parts| - 1].name else ""
    }

    function Join(name: string): Path {
      Path(root, parts + [Normal(name)])
    }
  }

  /** The name up to its last dot, unless that dot is the first character. */
  function FileStem(name: string): (r: string)
    ensures r <= name
    ensures forall i :: |r| < i < |name| ==> name[i] != '.'
    ensures if r == name then forall i :: 0 < i < |name| ==> name[i] != '.' else r != "" && name[|r|] == '.'
  {
    StemBefore(name, |name|)
  }

  function StemBefore(name: string, n: nat): (r: string)
    requires n <= |name| && forall i :: 0 < i < |name| && n <= i ==> name[i] != '.'
    ensures r <= name
    ensures forall i :: |r| < i < |name| ==> name[i] != '.'
    ensures if r == name then forall i :: 0 < i < |name| ==> name[i] != '.' else r != "" && name[|r|] == '.'
  {
    if n <= 1 then name else if name[n - 1] == '.' then name[..n - 1] else StemBefore(name, n - 1)
  }

  /** `std::path::absolute` without a file system: the only path it refuses is the empty one. */
  function Absolute(path: Path, cwd: Path): Option<Path> {
    if path.IsEmpty() then None
    else if path.root.Some? then Some(path)
    else Some(Path(cwd.root, cwd.parts + path.parts))
  }

  /** The names left when `.` is dropped and `..` takes back the name before it. */
  function Collapse(parts: seq<Component>): seq<string> {
    if parts == [] then [] else
      var before := Collapse(parts[..|parts| - 1]);
      match parts[|parts| - 1]
      case CurDir => before
      case ParentDir => if before == [] then [] else before[..|before| - 1]
      case Normal(name) => before + [name]
  }

  /** The text in front of a further name. */
  function Base(root: string, names: seq<string>): string {
    if names == [] then root else Base(root, names[..|names| - 1]) + names[|names| - 1] + "\\"
  }

  function Display(root: string, names: seq<string>): string {
    if names == [] then root else Base(root, names[..|names| - 1]) + names[|names| - 1]
  }

  // ---- lower case ----

  predicate IsDigit(c: char) {
    '0' <= c <= '9'
  }

  /** Lower-casing a character may depend on its neighbours (a final sigma), its length may not. */
  ghost predicate IsLowercasing(lower: (string, nat) -> string) {
    forall s: string, i: nat :: i < |s| ==>
      && |lower(s, i)| == |lower([s[i]], 0)|
      && (IsDigit(s[i]) ==> lower(s, i) == [s[i]])
  }

  /** The first `n` characters of `s` in lower case. */
  function Lowered(lower: (string, nat) -> string, s: string, n: nat): string
    requires n <= |s|
  {
    if n == 0 then "" else Lowered(lower, s, n - 1) + lower(s, n - 1)
  }

  function Lowercase(lower: (string, nat) -> string, s: string): string {
    Lowered(lower, s, |s|)
  }

  function Backslashed(s: string): string {
    Map(c => if c == '/' then '\\' else c, s)
  }

  /** The key by which the paths of not yet existing files are compared. */
  function LexicalKey(path: Path, cwd: Path, lower: (string, nat) -> string): Option<string>
    requires cwd.root.Some?
  {
    match Absolute(path, cwd)
    case None => None
    case Some(absolute) =>
      Some(Lowercase(lower, Backslashed(Display(absolute.root.value, Collapse(absolute.parts)))))
  }

  method LexicalPathKey(path: Path, cwd: Path, lower: (string, nat) -> string) returns (key: Option<string>)
    requires cwd.root.Some?
    ensures key == LexicalKey(path, cwd, lower)
  {
    var absolute := Absolute(path, cwd);
    if absolute.None? {
      return None;
    }
    var parts := absolute.value.parts;
    var normalized: seq<string> := [];
    for i := 0 to |parts|
      invariant normalized == Collapse(parts[..i])
    {
      match parts[i] {
        case CurDir =>
        case ParentDir =>
          if normalized != [] {
            normalized := normalized[..|normalized| - 1];
          }
        case Normal(name) =>
          normalized := normalized + [name];
      }
      assert parts[..i + 1][..i] == parts[..i];
    }
    assert parts[..|parts|] == parts;
    return Some(Lowercase(lower, Backslashed(Display(absolute.value.root.value, normalized))));
  }

  // ---- numbered names ----

  function Decimal(n: nat): (r: string)
    ensures r != "" && forall i :: 0 <= i < |r| ==> IsDigit(r[i])
  {
    var digit := ('0' as int + n % 10) as char;
    if n < 10 then [digit] else Decimal(n / 10) + [digit]
  }

  lemma {:induction false} DecimalIsInjective(m: nat, n: nat)
    requires Decimal(m) == Decimal(n)
    ensures m == n
  {
    assert m % 10 == n % 10 by {
      assert Decimal(m)[|Decimal(m)| - 1] == Decimal(n)[|Decimal(n)| - 1];
    }
    if m >= 10 && n >= 10 {
      assert Decimal(m / 10) == Decimal(m)[..|Decimal(m)| - 1] == Decimal(n / 10);
      DecimalIsInjective(m / 10, n / 10);
    }
  }

  const TRANSLATED := "_\U{BC88}\U{C5ED}"
  const EXTENSION := ".txt"

  function NumberedName(stem: string, suffix: nat): string {
    if suffix == 1 then stem + TRANSLATED + EXTENSION
    else stem + TRANSLATED + "_" + Decimal(suffix) + EXTENSION
  }

  function Candidate(input: Path, suffix: nat): Path {
    input.Parent().Join(NumberedName(FileStem(input.FileName()), suffix))
  }

  function CandidateKey(input: Path, suffix: nat, cwd: Path, lower: (string, nat) -> string): (r: string)
    requires cwd.root.Some?
    ensures LexicalKey(Candidate(input, suffix), cwd, lower) == Some(r)
  {
    LexicalKey(Candidate(input, suffix), cwd, lower).value
  }

  // ---- different numbers give different keys ----

  /** How long `s` is in lower case. */
  function Width(lower: (string, nat) -> string, s: string): nat {
    if s == "" then 0 else Width(lower, s[..|s| - 1]) + |lower([s[|s| - 1]], 0)|
  }

  lemma {:induction false} LoweredWidth(lower: (string, nat) -> string, s: string, n: nat)
    requires IsLowercasing(lower) && n <= |s|
    ensures |Lowered(lower, s, n)| == Width(lower, s[..n])
  {
    if n > 0 {
      assert s[..n][..n - 1] == s[..n - 1];
      LoweredWidth(lower, s, n - 1);
    }
  }

  lemma {:induction false} WidthConcat(lower: (string, nat) -> string, a: string, b: string)
    ensures Width(lower, a + b) == Width(lower, a) + Width(lower, b)
  {
    if b == "" {
      assert a + b == a;
    } else {
      assert (a + b)[..|a + b| - 1] == a + b[..|b| - 1];
      WidthConcat(lower, a, b[..|b| - 1]);
    }
  }

  lemma {:induction false} WidthOfDigits(lower: (string, nat) -> string, d: string)
    requires IsLowercasing(lower) && forall i :: 0 <= i < |d| ==> IsDigit(d[i])
    ensures Width(lower, d) == |d|
  {
    if d != "" {
      WidthOfDigits(lower, d[..|d| - 1]);
      assert lower([d[|d| - 1]], 0) == [[d[|d| - 1]][0]];
    }
  }

  /** The lower-case text of a prefix is where the lower-case text of the whole begins. */
  lemma {:induction false} LoweredGrows(lower: (string, nat) -> string, s: string, n: nat, m: nat)
    requires n <= m <= |s|
    ensures Lowered(lower, s, n) <= Lowered(lower, s, m)
  {
    if n < m {
      LoweredGrows(lower, s, n, m - 1);
    }
  }

  /** A digit stays where it is, behind the lower-case text of everything in front of it. */
  lemma DigitIsKept(lower: (string, nat) -> string, s: string, n: nat)
    requires IsLowercasing(lower) && n < |s| && IsDigit(s[n])
    ensures Width(lower, s[..n]) < |Lowercase(lower, s)| && Lowercase(lower, s)[Width(lower, s[..n])] == s[n]
  {
    LoweredWidth(lower, s, n);
    LoweredGrows(lower, s, n + 1, |s|);
    assert Lowered(lower, s, n + 1) == Lowered(lower, s, n) + [s[n]];
  }

  /** Digits between two fixed texts can be read back from the lower-case form. */
  lemma DigitsAreRecovered(lower: (string, nat) -> string, head: string, d: string, e: string, tail: string)
    requires IsLowercasing(lower)
    requires forall i :: 0 <= i < |d| ==> IsDigit(d[i])
    requires forall i :: 0 <= i < |e| ==> IsDigit(e[i])
    requires Lowercase(lower, head + d + tail) == Lowercase(lower, head + e + tail)
    ensures d == e
  {
    LowercaseWidth(lower, head, d, tail);
    LowercaseWidth(lower, head, e, tail);
    forall k | 0 <= k < |d|
      ensures d[k] == e[k]
    {
      DigitInside(lower, head, d, tail, k);
      DigitInside(lower, head, e, tail, k);
    }
  }

  lemma LowercaseWidth(lower: (string, nat) -> string, head: string, d: string, tail: string)
    requires IsLowercasing(lower) && forall i :: 0 <= i < |d| ==> IsDigit(d[i])
    ensures |Lowercase(lower, head + d + tail)| == Width(lower, head) + |d| + Width(lower, tail)
  {
    var s := head + d + tail;
    LoweredWidth(lower, s, |s|);
    assert s[..|s|] == s;
    WidthConcat(lower, head + d, tail);
    WidthConcat(lower, head, d);
    WidthOfDigits(lower, d);
  }

  lemma DigitInside(lower: (string, nat) -> string, head: string, d: string, tail: string, k: nat)
    requires IsLowercasing(lower) && k < |d| && forall i :: 0 <= i < |d| ==> IsDigit(d[i])
    ensures Width(lower, head) + k < |Lowercase(lower, head + d + tail)|
    ensures Lowercase(lower, head + d + tail)[Width(lower, head) + k] == d[k]
  {
    hide Lowercase, Width, IsLowercasing;
    var s := head + d + tail;
    assert s[..|head| + k] == head + d[..k];
    WidthConcat(lower, head, d[..k]);
    WidthOfDigits(lower, d[..k]);
    DigitIsKept(lower, s, |head| + k);
  }

  /** What stands before the number in every candidate for `input`. */
  function Stub(input: Path, cwd: Path): string
    requires cwd.root.Some?
  {
    var parent := Absolute(input.Parent().Join(""), cwd).value;
    Backslashed(Base(parent.root.value, Collapse(parent.parts[..|parent.parts| - 1]))
                + FileStem(input.FileName()) + TRANSLATED)
  }

  /** A further name changes nothing in front of it. */
  lemma DisplayOfJoin(root: string, front: seq<Component>, name: string)
    ensures Display(root, Collapse(front + [Normal(name)])) == Base(root, Collapse(front)) + name
  {
    var names := Collapse(front);
    assert (front + [Normal(name)])[..|front|] == front;
    assert (names + [name])[..|names|] == names;
  }

  /** Only slashes change, and the numbering contains none. */
  lemma BackslashedTail(head: string, tail: string)
    requires forall i :: 0 <= i < |tail| ==> tail[i] != '/'
    ensures Backslashed(head + tail) == Backslashed(head) + tail
  {
  }

  function Number(suffix: nat): (r: string)
    ensures forall i :: 0 <= i < |r| ==> r[i] != '/'
  {
    if suffix == 1 then "" else "_" + Decimal(suffix)
  }

  lemma CandidateKeyShape(input: Path, suffix: nat, cwd: Path, lower: (string, nat) -> string)
    requires cwd.root.Some?
    ensures CandidateKey(input, suffix, cwd, lower) == Lowercase(lower, Stub(input, cwd) + Number(suffix) + EXTENSION)
  {
    hide Lowercase, Decimal, FileStem, Collapse, Base, Display, Backslashed;
    var stem := FileStem(input.FileName());
    var name := NumberedName(stem, suffix);
    var parent := Absolute(input.Parent().Join(""), cwd).value;
    var whole := Absolute(Candidate(input, suffix), cwd).value;
    var front := parent.parts[..|parent.parts| - 1];
    assert whole.root == parent.root && whole.parts == front + [Normal(name)];
    DisplayOfJoin(parent.root.value, front, name);
    ShapeOfName(Base(parent.root.value, Collapse(front)), stem, suffix);
  }

  lemma ShapeOfName(base: string, stem: string, suffix: nat)
    ensures Backslashed(base + NumberedName(stem, suffix))
         == Backslashed(base + stem + TRANSLATED) + Number(suffix) + EXTENSION
  {
    hide Backslashed, Decimal;
    assert base + NumberedName(stem, suffix) == (base + stem + TRANSLATED) + (Number(suffix) + EXTENSION);
    BackslashedTail(base + stem + TRANSLATED, Number(suffix) + EXTENSION);
    Associate(Backslashed(base + stem + TRANSLATED), Number(suffix), EXTENSION);
  }

  lemma NumbersGiveDistinctKeys(input: Path, m: nat, n: nat, cwd: Path, lower: (string, nat) -> string)
    requires cwd.root.Some? && IsLowercasing(lower) && 1 <= m < n
    ensures CandidateKey(input, m, cwd, lower) != CandidateKey(input, n, cwd, lower)
  {
    hide LexicalKey, CandidateKey, Lowercase, Stub, Decimal, Width, IsLowercasing, Candidate;
    CandidateKeyShape(input, m, cwd, lower);
    CandidateKeyShape(input, n, cwd, lower);
    var stub := Stub(input, cwd);
    assert stub + ("_" + Decimal(n)) == (stub + "_") + Decimal(n);
    if m == 1 {
      assert stub + "" == stub + "" + "";
      LowercaseWidth(lower, stub, "", EXTENSION);
      LowercaseWidth(lower, stub + "_", Decimal(n), EXTENSION);
      WidthConcat(lower, stub, "_");
    } else {
      assert stub + ("_" + Decimal(m)) == (stub + "_") + Decimal(m);
      if CandidateKey(input, m, cwd, lower) == CandidateKey(input, n, cwd, lower) {
        DigitsAreRecovered(lower, stub + "_", Decimal(m), Decimal(n), EXTENSION);
        DecimalIsInjective(m, n);
      }
    }
  }

  // ---- default names ----

  /** `suffix` is the smallest number whose candidate for `input` is not taken. */
  predicate IsSmallestFree(input: Path, suffix: nat, taken: set<string>, cwd: Path, lower: (string, nat) -> string)
    requires cwd.root.Some?
  {
    && suffix >= 1
    && CandidateKey(input, suffix, cwd, lower) !in taken
    && forall k: nat :: 1 <= k < suffix ==> CandidateKey(input, k, cwd, lower) in taken
  }

  /** Pigeonhole: among `|taken| + 1` numbers one is free. */
  lemma {:induction false} TakenNumbersAreFew(input: Path, suffix: nat, taken: set<string>, cwd: Path,
                                              lower: (string, nat) -> string)
    requires cwd.root.Some? && IsLowercasing(lower) && suffix >= 1
    requires forall k: nat :: 1 <= k < suffix ==> CandidateKey(input, k, cwd, lower) in taken
    ensures suffix <= |taken| + 1
  {
    hide *;
    if suffix > 1 {
      var last := CandidateKey(input, suffix - 1, cwd, lower);
      forall k: nat | 1 <= k < suffix - 1
        ensures CandidateKey(input, k, cwd, lower) in taken - {last}
      {
        NumbersGiveDistinctKeys(input, k, suffix - 1, cwd, lower);
      }
      TakenNumbersAreFew(input, suffix - 1, taken - {last}, cwd, lower);
    }
  }

  method SmallestFreeSuffix(input: Path, taken: set<string>, cwd: Path, lower: (string, nat) -> string)
    returns (suffix: nat, key: string)
    requires cwd.root.Some? && IsLowercasing(lower)
    ensures IsSmallestFree(input, suffix, taken, cwd, lower) && suffix <= |taken| + 1
    ensures key == CandidateKey(input, suffix, cwd, lower)
  {
    hide CandidateKey, LexicalKey, Candidate, IsLowercasing;
    suffix := 1;
    var found := LexicalPathKey(Candidate(input, suffix), cwd, lower);
    CandidateHasKey(input, suffix, cwd, lower);
    while found.value in taken
      invariant suffix >= 1 && found == Some(CandidateKey(input, suffix, cwd, lower))
      invariant forall k: nat :: 1 <= k < suffix ==> CandidateKey(input, k, cwd, lower) in taken
      decreases |taken| + 2 - suffix
    {
      TakenNumbersAreFew(input, suffix + 1, taken, cwd, lower);
      suffix := suffix + 1;
      found := LexicalPathKey(Candidate(input, suffix), cwd, lower);
      CandidateHasKey(input, suffix, cwd, lower);
    }
    TakenNumbersAreFew(input, suffix, taken, cwd, lower);
    key := found.value;
  }

  lemma CandidateHasKey(input: Path, suffix: nat, cwd: Path, lower: (string, nat) -> string)
    requires cwd.root.Some?
    ensures LexicalKey(Candidate(input, suffix), cwd, lower) == Some(CandidateKey(input, suffix, cwd, lower))
  {
  }

  function KeysOf(paths: seq<Path>, cwd: Path, lower: (string, nat) -> string): (r: set<string>)
    requires cwd.root.Some?
  {
    set i | 0 <= i < |paths| && LexicalKey(paths[i], cwd, lower).Some? :: LexicalKey(paths[i], cwd, lower).value
  }

  lemma KeysOfSnoc(paths: seq<Path>, path: Path, cwd: Path, lower: (string, nat) -> string)
    requires cwd.root.Some? && LexicalKey(path, cwd, lower).Some?
    ensures KeysOf(paths + [path], cwd, lower) == KeysOf(paths, cwd, lower) + {LexicalKey(path, cwd, lower).value}
  {
    hide LexicalKey;
    var all := paths + [path];
    forall key
      ensures key in KeysOf(all, cwd, lower) <==>
        key in KeysOf(paths, cwd, lower) || key == LexicalKey(path, cwd, lower).value
    {
      if key in KeysOf(paths, cwd, lower) {
        var i :| 0 <= i < |paths| && LexicalKey(paths[i], cwd, lower) == Some(key);
        assert all[i] == paths[i];
      }
      if key == LexicalKey(path, cwd, lower).value {
        assert all[|paths|] == path;
      }
    }
  }

  /** Every output takes the smallest free number of its input, inputs and earlier outputs being taken. */
  predicate AreDefaults(inputs: seq<Path>, outputs: seq<Path>, suffixes: seq<nat>, cwd: Path, lower: (string,
                        nat) -> string)
    requires cwd.root.Some?
  {
    && |outputs| == |suffixes| <= |inputs|
    && forall i :: 0 <= i < |outputs| ==>
         && outputs[i] == Candidate(inputs[i], suffixes[i])
         && IsSmallestFree(inputs[i], suffixes[i], KeysOf(inputs, cwd, lower) + KeysOf(outputs[..i], cwd, lower), cwd,
                           lower)
  }

  method DefaultOutputPaths(inputs: seq<Path>, cwd: Path, lower: (string, nat) -> string)
    returns (outputs: Option<seq<Path>>, ghost suffixes: seq<nat>)
    requires cwd.root.Some? && IsLowercasing(lower)
    ensures outputs.None? <==> exists i :: 0 <= i < |inputs| && inputs[i].IsEmpty()
    ensures outputs.Some? ==> |outputs.value| == |inputs| && AreDefaults(inputs, outputs.value, suffixes, cwd, lower)
  {
    hide LexicalKey, KeysOf, IsSmallestFree, Candidate, CandidateKey, IsLowercasing;
    suffixes := [];
    var inputKeys := CollectKeys(inputs, cwd, lower);
    if inputKeys.None? {
      return None, [];
    }
    var outputKeys: set<string>, names: seq<Path> := {}, [];
    NoKeys(cwd, lower);
    for n := 0 to |inputs|
      invariant |names| == n && outputKeys == KeysOf(names, cwd, lower)
      invariant AreDefaults(inputs, names, suffixes, cwd, lower)
    {
      var suffix, key := SmallestFreeSuffix(inputs[n], inputKeys.value + outputKeys, cwd, lower);
      CandidateHasKey(inputs[n], suffix, cwd, lower);
      KeysOfSnoc(names, Candidate(inputs[n], suffix), cwd, lower);
      DefaultsSnoc(inputs, names, suffixes, suffix, cwd, lower);
      outputKeys := outputKeys + {key};
      names, suffixes := names + [Candidate(inputs[n], suffix)], suffixes + [suffix];
    }
    return Some(names), suffixes;
  }

  method CollectKeys(inputs: seq<Path>, cwd: Path, lower: (string, nat) -> string) returns (keys: Option<set<string>>)
    requires cwd.root.Some?
    ensures keys == if exists i :: 0 <= i < |inputs| && inputs[i].IsEmpty() then None
                    else Some(KeysOf(inputs, cwd, lower))
  {
    hide KeysOf;
    var collected := {};
    NoKeys(cwd, lower);
    assert inputs[..0] == [];
    for n := 0 to |inputs|
      invariant forall i :: 0 <= i < n ==> !inputs[i].IsEmpty()
      invariant collected == KeysOf(inputs[..n], cwd, lower)
    {
      var key := LexicalPathKey(inputs[n], cwd, lower);
      if key.None? {
        return None;
      }
      KeysOfSnoc(inputs[..n], inputs[n], cwd, lower);
      assert inputs[..n + 1] == inputs[..n] + [inputs[n]];
      collected := collected + {key.value};
    }
    assert inputs[..|inputs|] == inputs;
    return Some(collected);
  }

  lemma NoKeys(cwd: Path, lower: (string, nat) -> string)
    requires cwd.root.Some?
    ensures KeysOf([], cwd, lower) == {}
  {
  }

  lemma DefaultsSnoc(inputs: seq<Path>, outputs: seq<Path>, suffixes: seq<nat>, suffix: nat, cwd: Path,
                     lower: (string, nat) -> string)
    requires cwd.root.Some? && AreDefaults(inputs, outputs, suffixes, cwd, lower) && |outputs| < |inputs|
    requires IsSmallestFree(inputs[|outputs|], suffix, KeysOf(inputs, cwd, lower) + KeysOf(outputs, cwd, lower), cwd,
                            lower)
    ensures AreDefaults(inputs, outputs + [Candidate(inputs[|outputs|], suffix)], suffixes + [suffix], cwd, lower)
  {
    hide KeysOf, IsSmallestFree, Candidate;
    var all := outputs + [Candidate(inputs[|outputs|], suffix)];
    forall i | 0 <= i < |all|
      ensures all[..i] == outputs[..i]
    {
    }
    assert outputs[..|outputs|] == outputs;
  }

  /** Default outputs never collide: not with each other and not with any input. */
  lemma DefaultsNeverCollide(inputs: seq<Path>, outputs: seq<Path>, suffixes: seq<nat>, cwd: Path, lower: (string,
                             nat) -> string, i: nat)
    requires cwd.root.Some? && AreDefaults(inputs, outputs, suffixes, cwd, lower) && i < |outputs|
    ensures LexicalKey(outputs[i], cwd, lower).Some?
    ensures forall j :: 0 <= j < |inputs| ==> LexicalKey(outputs[i], cwd, lower) != LexicalKey(inputs[j], cwd, lower)
    ensures forall j :: 0 <= j < i ==> LexicalKey(outputs[i], cwd, lower) != LexicalKey(outputs[j], cwd, lower)
  {
    hide LexicalKey, CandidateKey, KeysOf;
    CandidateHasKey(inputs[i], suffixes[i], cwd, lower);
    forall j | 0 <= j < |inputs|
      ensures LexicalKey(outputs[i], cwd, lower) != LexicalKey(inputs[j], cwd, lower)
    {
      KeyOfMember(inputs, j, cwd, lower);
    }
    forall j | 0 <= j < i
      ensures LexicalKey(outputs[i], cwd, lower) != LexicalKey(outputs[j], cwd, lower)
    {
      assert outputs[..i][j] == outputs[j];
      KeyOfMember(outputs[..i], j, cwd, lower);
    }
  }

  lemma KeyOfMember(paths: seq<Path>, i: nat, cwd: Path, lower: (string, nat) -> string)
    requires cwd.root.Some? && i < |paths|
    ensures LexicalKey(paths[i], cwd, lower).Some? ==>
      LexicalKey(paths[i], cwd, lower).value in KeysOf(paths, cwd, lower)
  {
    hide LexicalKey;
  }

  lemma SmallestFreeIsUnique(input: Path, m: nat, n: nat, taken: set<string>, cwd: Path, lower: (string, nat) -> string)
    requires cwd.root.Some? && IsSmallestFree(input, m, taken, cwd, lower)
      && IsSmallestFree(input, n, taken, cwd, lower)
    ensures m == n
  {
    hide CandidateKey;
  }

  /** The inputs alone decide the default outputs. */
  lemma {:induction false} DefaultsAreUnique(inputs: seq<Path>, a: seq<Path>, sa: seq<nat>, b: seq<Path>,
                                             sb: seq<nat>, cwd: Path, lower: (string, nat) -> string)
    requires cwd.root.Some? && |a| == |b|
    requires AreDefaults(inputs, a, sa, cwd, lower) && AreDefaults(inputs, b, sb, cwd, lower)
    ensures a == b && sa == sb
  {
    hide KeysOf, IsSmallestFree, Candidate;
    if |a| > 0 {
      var n := |a| - 1;
      DefaultsPrefix(inputs, a, sa, cwd, lower);
      DefaultsPrefix(inputs, b, sb, cwd, lower);
      DefaultsAreUnique(inputs, a[..n], sa[..n], b[..n], sb[..n], cwd, lower);
      SmallestFreeIsUnique(inputs[n], sa[n], sb[n], KeysOf(inputs, cwd, lower) + KeysOf(a[..n], cwd, lower), cwd,
                           lower);
      assert a == a[..n] + [a[n]] && b == b[..n] + [b[n]] && sa == sa[..n] + [sa[n]] && sb == sb[..n] + [sb[n]];
    }
  }

  lemma DefaultsPrefix(inputs: seq<Path>, outputs: seq<Path>, suffixes: seq<nat>, cwd: Path,
                       lower: (string, nat) -> string)
    requires cwd.root.Some? && AreDefaults(inputs, outputs, suffixes, cwd, lower) && |outputs| > 0
    ensures AreDefaults(inputs, outputs[..|outputs| - 1], suffixes[..|outputs| - 1], cwd, lower)
  {
    hide KeysOf, IsSmallestFree, Candidate;
    forall i | 0 <= i < |outputs| - 1
      ensures outputs[..|outputs| - 1][..i] == outputs[..i]
    {
    }
  }

  // ---- the check before a job starts ----

  datatype JobCheck = Accepted | CountMismatch | BadPath | SameAsInput(input: nat, output: nat)
    | DuplicateOutput(output: nat)

  /** The first `n` outputs have keys that differ from each other and from the keys of all inputs. */
  predicate Separate(inputs: seq<Path>, outputs: seq<Path>, key: Path -> Option<string>, n: nat)
    requires n <= |outputs|
  {
    && (forall i :: 0 <= i < n ==> key(outputs[i]).Some?)
    && (forall i, j :: 0 <= i < n && 0 <= j < |inputs| ==> key(outputs[i]) != key(inputs[j]))
    && (forall i, j :: 0 <= i < j < n ==> key(outputs[i]) != key(outputs[j]))
  }

  predicate AllHaveKeys(paths: seq<Path>, key: Path -> Option<string>) {
    forall i :: 0 <= i < |paths| ==> key(paths[i]).Some?
  }

  method ValidateJobPaths(inputs: seq<Path>, outputs: seq<Path>, key: Path -> Option<string>) returns (r: JobCheck)
    ensures r.Accepted? <==>
      && |inputs| == |outputs| && AllHaveKeys(inputs, key)
      && Separate(inputs, outputs, key, |outputs|)
    ensures r.CountMismatch? <==> |inputs| != |outputs|
    ensures r.BadPath? ==> !AllHaveKeys(inputs, key) || !AllHaveKeys(outputs, key)
    ensures |inputs| == |outputs| && !AllHaveKeys(inputs, key) ==> r.BadPath?
    ensures r.SameAsInput? ==>
      && r.input < |inputs| && r.output < |outputs| && key(inputs[r.input]) == key(outputs[r.output])
      && Separate(inputs, outputs, key, r.output)
      && forall j :: 0 <= j < r.input ==> key(inputs[j]) != key(outputs[r.output])
    ensures r.DuplicateOutput? ==>
      && r.output < |outputs| && Separate(inputs, outputs, key, r.output)
      && (exists j :: 0 <= j < r.output && key(outputs[j]) == key(outputs[r.output]))
      && forall j :: 0 <= j < |inputs| ==> key(inputs[j]) != key(outputs[r.output])
  {
    if |inputs| != |outputs| {
      return CountMismatch;
    }
    for i := 0 to |inputs|
      invariant forall k :: 0 <= k < i ==> key(inputs[k]).Some?
    {
      if key(inputs[i]).None? {
        return BadPath;
      }
    }
    var outputKeys: set<string> := {};
    for n := 0 to |outputs|
      invariant Separate(inputs, outputs, key, n)
      invariant outputKeys == set i | 0 <= i < n :: key(outputs[i]).value
    {
      var outputKey := key(outputs[n]);
      if outputKey.None? {
        return BadPath;
      }
      for j := 0 to |inputs|
        invariant forall k :: 0 <= k < j ==> key(inputs[k]) != outputKey
      {
        if key(inputs[j]) == outputKey {
          return SameAsInput(j, n);
        }
      }
      if outputKey.value in outputKeys {
        return DuplicateOutput(n);
      }
      outputKeys := outputKeys + {outputKey.value};
    }
    return Accepted;
  }

  /** The default outputs pass the job check whenever the file system tells each of them apart from the
      inputs and the other outputs that its name tells it apart from. */
  lemma DefaultsPassTheCheck(inputs: seq<Path>, outputs: seq<Path>, suffixes: seq<nat>, cwd: Path,
                             lower: (string, nat) -> string, key: Path -> Option<string>)
    requires cwd.root.Some? && AreDefaults(inputs, outputs, suffixes, cwd, lower)
    requires AllHaveKeys(outputs, key)
    requires forall p, q :: p in outputs && (q in outputs || q in inputs) && key(p) == key(q) ==>
      LexicalKey(p, cwd, lower) == LexicalKey(q, cwd, lower)
    ensures Separate(inputs, outputs, key, |outputs|)
  {
    hide LexicalKey, AreDefaults;
    forall i | 0 <= i < |outputs|
      ensures forall j :: 0 <= j < |inputs| ==> key(outputs[i]) != key(inputs[j])
      ensures forall j :: 0 <= j < i ==> key(outputs[i]) != key(outputs[j])
    {
      DefaultsNeverCollide(inputs, outputs, suffixes, cwd, lower, i);
    }
  }
}
