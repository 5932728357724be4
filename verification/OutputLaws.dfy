/** What the comparison keys and the default names mean, said without the functions that compute them. */
module OutputLaws {
  import opened Prelude
  import opened OutputPaths

  // ---- dots in a path ----

  lemma {:induction false} CollapseConcat(a: seq<Component>, a': seq<Component>, b: seq<Component>)
    requires Collapse(a) == Collapse(a')
    ensures Collapse(a + b) == Collapse(a' + b)
    decreases |b|
  {
    if b == [] {
      assert a + b == a && a' + b == a';
    } else {
      var n := |b| - 1;
      assert (a + b)[..|a| + n] == a + b[..n] && (a' + b)[..|a'| + n] == a' + b[..n];
      CollapseConcat(a, a', b[..n]);
    }
  }

  lemma CollapseSnoc(a: seq<Component>, c: Component)
    ensures Collapse(a + [c]) ==
      match c
      case CurDir => Collapse(a)
      case ParentDir => if Collapse(a) == [] then [] else Collapse(a)[..|Collapse(a)| - 1]
      case Normal(name) => Collapse(a) + [name]
  {
    assert (a + [c])[..|a|] == a;
  }

  /** A `.` inside a path, and a name that is taken back at once, change nothing. */
  lemma DotsDoNotMatter(root: Option<string>, a: seq<Component>, name: string, b: seq<Component>, cwd: Path,
                        lower: (string, nat) -> string)
    requires cwd.root.Some? && !Path(root, a + b).IsEmpty()
    ensures LexicalKey(Path(root, a + [CurDir] + b), cwd, lower) == LexicalKey(Path(root, a + b), cwd, lower)
    ensures LexicalKey(Path(root, a + [Normal(name), ParentDir] + b), cwd, lower)
         == LexicalKey(Path(root, a + b), cwd, lower)
  {
    SameKey(root, a, [CurDir], b, cwd, lower);
    SameKey(root, a, [Normal(name), ParentDir], b, cwd, lower);
  }

  lemma SameKey(root: Option<string>, a: seq<Component>, c: seq<Component>, b: seq<Component>, cwd: Path,
                lower: (string, nat) -> string)
    requires cwd.root.Some? && !Path(root, a + b).IsEmpty()
    requires c == [CurDir] || (|c| == 2 && c[0].Normal? && c[1] == ParentDir)
    ensures LexicalKey(Path(root, a + c + b), cwd, lower) == LexicalKey(Path(root, a + b), cwd, lower)
  {
    var front := if root.Some? then a else cwd.parts + a;
    TakenBack(front, c);
    CollapseConcat(front + c, front, b);
    hide Collapse;
    if root.None? {
      Associate(cwd.parts, a, b);
      Associate(cwd.parts, a, c);
      Associate(cwd.parts, a + c, b);
    }
  }

  lemma TakenBack(front: seq<Component>, c: seq<Component>)
    requires c == [CurDir] || (|c| == 2 && c[0].Normal? && c[1] == ParentDir)
    ensures Collapse(front + c) == Collapse(front)
  {
    CollapseSnoc(front, c[0]);
    if |c| == 2 {
      CollapseSnoc(front + [c[0]], c[1]);
      assert front + [c[0]] + [c[1]] == front + c;
    }
  }

  /** There is nothing above the root. */
  lemma NothingAboveRoot(root: string, b: seq<Component>, cwd: Path, lower: (string, nat) -> string)
    requires cwd.root.Some?
    ensures LexicalKey(Path(Some(root), [ParentDir] + b), cwd, lower) == LexicalKey(Path(Some(root), b), cwd, lower)
  {
    CollapseSnoc([], ParentDir);
    assert [] + [ParentDir] == [ParentDir] && [] + b == b;
    CollapseConcat([ParentDir], [], b);
  }

  /** A relative path is looked up from the current directory, and the empty one has no key. */
  lemma RelativeToCurrent(parts: seq<Component>, cwd: Path, lower: (string, nat) -> string)
    requires cwd.root.Some?
    ensures LexicalKey(Path(None, parts), cwd, lower)
         == if parts == [] then None else LexicalKey(Path(cwd.root, cwd.parts + parts), cwd, lower)
  {
  }

  // ---- a path without dots ----

  function Components(names: seq<string>): seq<Component> {
    Map(name => Normal(name), names)
  }

  /** The names with a backslash between neighbours. */
  function Separated(names: seq<string>): string {
    if names == [] then "" else if |names| == 1 then names[0] else names[0] + "\\" + Separated(names[1..])
  }

  lemma {:induction false} CollapseNames(names: seq<string>)
    ensures Collapse(Components(names)) == names
    decreases |names|
  {
    if names != [] {
      var n := |names| - 1;
      CollapseNames(names[..n]);
      assert Components(names) == Components(names[..n]) + [Normal(names[n])];
      CollapseSnoc(Components(names[..n]), Normal(names[n]));
    }
  }

  lemma {:induction false} BaseShift(root: string, name: string, names: seq<string>)
    ensures Base(root, [name] + names) == Base(root + name + "\\", names)
    decreases |names|
  {
    if names == [] {
      assert [name] + names == [name] && [name][..0] == [];
    } else {
      var n := |names| - 1;
      assert ([name] + names)[..n + 1] == [name] + names[..n];
      BaseShift(root, name, names[..n]);
    }
  }

  lemma {:induction false} DisplaySeparates(root: string, names: seq<string>)
    ensures Display(root, names) == root + Separated(names)
    decreases |names|
  {
    if |names| == 1 {
      assert names[..0] == [];
    } else if |names| > 1 {
      var rest := names[1..];
      DisplaySeparates(root + names[0] + "\\", rest);
      BaseShift(root, names[0], rest[..|rest| - 1]);
      assert names[..|names| - 1] == [names[0]] + rest[..|rest| - 1];
      Associate(root + names[0], "\\", Separated(rest));
      Associate(root, names[0], "\\");
      Associate(root, names[0] + "\\", Separated(rest));
    }
  }

  /** The key of an absolute path is its text in lower case, with backslashes for slashes. */
  lemma KeyOfNames(root: string, names: seq<string>, cwd: Path, lower: (string, nat) -> string)
    requires cwd.root.Some?
    ensures LexicalKey(Path(Some(root), Components(names)), cwd, lower)
         == Some(Lowercase(lower, Backslashed(root + Separated(names))))
  {
    CollapseNames(names);
    DisplaySeparates(root, names);
  }

  lemma OnlySlashesChange(s: string, i: nat)
    requires i < |s|
    ensures |Backslashed(s)| == |s| && (if s[i] == '/' then Backslashed(s)[i] == '\\' else Backslashed(s)[i] == s[i])
  {
  }

  // ---- default names ----

  /** The number that digits stand for. */
  function Value(digits: string): nat
    requires forall i :: 0 <= i < |digits| ==> '0' <= digits[i] <= '9'
  {
    if digits == "" then 0 else 10 * Value(digits[..|digits| - 1]) + (digits[|digits| - 1] as int - '0' as int)
  }

  lemma {:induction false} DecimalMeans(n: nat)
    ensures Value(Decimal(n)) == n && (n > 0 ==> Decimal(n)[0] != '0')
  {
    var digits := Decimal(n);
    if n >= 10 {
      DecimalMeans(n / 10);
      assert digits[..|digits| - 1] == Decimal(n / 10);
      assert digits[0] == Decimal(n / 10)[0];
    } else {
      assert digits[..0] == "";
    }
  }

  /** A default output stands beside its input, under the stem of its name, the mark for a translation and, from
      the second candidate on, the number. */
  lemma CandidateStandsBeside(input: Path, suffix: nat)
    requires input.parts != [] && input.parts[|input.parts| - 1].Normal?
    ensures var name, n := input.parts[|input.parts| - 1].name, |input.parts| - 1;
      Candidate(input, suffix) == Path(input.root, input.parts[..n] + [Normal(
        FileStem(name) + "_\U{BC88}\U{C5ED}" + (if suffix == 1 then "" else "_" + Decimal(suffix)) + ".txt")])
  {
    var stem := FileStem(input.parts[|input.parts| - 1].name);
    Associate(stem + TRANSLATED, "_", Decimal(suffix));
    assert stem + TRANSLATED + "" == stem + TRANSLATED;
  }
}
