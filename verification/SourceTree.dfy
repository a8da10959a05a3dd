/** The source tree, the pruned walk over it, and the filter that the walk is equal to. */
module SourceTree {

  import opened Wrappers
  import opened SourceStream

  type Path = seq<string>

  /** What lstat sees; for a symbolic link, whether its target is a directory decides on which list the walk puts it. */
  datatype Node =
    | File(payload: Bytes, executable: bool)
    | Link(target: Bytes, executable: bool, toDirectory: bool)
    | Special
    | Directory(children: seq<Child>)

  datatype Child = Child(name: string, node: Node)

  datatype Entry = Entry(path: Path, node: Node)

  const EXCLUDED_FILES: set<string> := {".env", ".env.deploy", ".env.local", ".deployment-source.json"}

  const EXCLUDED_DIRECTORIES: set<string> := {
    ".git", ".github", ".ssh", ".codex", ".pytest_cache", ".venv", "venv", "__pycache__", "node_modules", ".next", ".next-build",
    ".pnpm-store", "coverage", "data", "VTK", "postProcessing", ".codex-artifacts", ".codex-db-backups", ".devcoordinator",
    "test-results", ".serena"
  }

  predicate PartExcluded(part: string) { part in EXCLUDED_DIRECTORIES || ".next-" <= part || "processor" <= part }

  predicate DirectoryExcluded(path: Path) { exists i :: 0 <= i < |path| && PartExcluded(path[i]) }

  predicate Excluded(path: Path)
    requires path != []
  {
    path[|path| - 1] in EXCLUDED_FILES || DirectoryExcluded(path[..|path| - 1])
  }

  // ---------- the walk ----------

  /** Links to directories: listed with the directories, kept as entries, never followed. */
  function LinkEntries(cs: seq<Child>, at: Path): seq<Entry> {
    if cs == [] then []
    else (if cs[0].node.Link? && cs[0].node.toDirectory && !DirectoryExcluded(at + [cs[0].name])
          then [Entry(at + [cs[0].name], cs[0].node)] else []) + LinkEntries(cs[1..], at)
  }

  predicate ListedAsFile(n: Node) { n.File? || n.Special? || (n.Link? && !n.toDirectory) }

  function FileEntries(cs: seq<Child>, at: Path): seq<Entry> {
    if cs == [] then []
    else (if ListedAsFile(cs[0].node) && !Excluded(at + [cs[0].name])
          then [Entry(at + [cs[0].name], cs[0].node)] else []) + FileEntries(cs[1..], at)
  }

  /** `os.walk` from the top, with excluded directories pruned. */
  function Walk(cs: seq<Child>, at: Path): seq<Entry>
    decreases cs, 1
  {
    LinkEntries(cs, at) + FileEntries(cs, at) + Deeper(cs, at)
  }

  function Deeper(cs: seq<Child>, at: Path): seq<Entry>
    decreases cs, 0
  {
    if cs == [] then []
    else (if cs[0].node.Directory? && !DirectoryExcluded(at + [cs[0].name])
          then Walk(cs[0].node.children, at + [cs[0].name]) else []) + Deeper(cs[1..], at)
  }

  // ---------- the filter ----------

  /** Everything in the tree that is not a directory. */
  function All(cs: seq<Child>, at: Path): seq<Entry>
    decreases cs, 1
  {
    if cs == [] then [] else Here(cs[0], at) + All(cs[1..], at)
  }

  function Here(c: Child, at: Path): seq<Entry>
    decreases c, 0
  {
    if c.node.Directory? then All(c.node.children, at + [c.name]) else [Entry(at + [c.name], c.node)]
  }

  /** The path filter: a link to a directory is judged as a directory, everything else as a file. */
  predicate Retained(e: Entry) {
    e.path != [] && if e.node.Link? && e.node.toDirectory then !DirectoryExcluded(e.path) else !Excluded(e.path)
  }

  function Kept(es: seq<Entry>): seq<Entry> {
    if es == [] then [] else (if Retained(es[0]) then [es[0]] else []) + Kept(es[1..])
  }

  lemma {:induction false} KeptConcat(a: seq<Entry>, b: seq<Entry>)
    ensures Kept(a + b) == Kept(a) + Kept(b)
  {
    if a == [] {
      assert a + b == b;
    } else {
      KeptFirst(a);
      KeptFirst(a + b);
      hide *;
      assert (a + b)[1..] == a[1..] + b;
      KeptConcat(a[1..], b);
      var head := if Retained(a[0]) then [a[0]] else [];
      assert head + (Kept(a[1..]) + Kept(b)) == (head + Kept(a[1..])) + Kept(b);
    }
  }

  lemma KeptFirst(es: seq<Entry>)
    requires es != []
    ensures Kept(es) == (if Retained(es[0]) then [es[0]] else []) + Kept(es[1..])
  {
  }

  lemma {:induction false} KeptMembers(es: seq<Entry>)
    ensures forall e :: e in Kept(es) <==> e in es && Retained(e)
  {
    if es != [] {
      KeptMembers(es[1..]);
      hide Retained;
    }
  }

  lemma {:induction false} NoneKept(es: seq<Entry>)
    requires forall e :: e in es ==> !Retained(e)
    ensures Kept(es) == []
  {
    if es != [] {
      assert es[0] in es;
      NoneKept(es[1..]);
      hide Retained;
    }
  }

  /** Every entry lies below the directory, under the name of one of its children. */
  lemma {:induction false} AllLieBelow(cs: seq<Child>, at: Path)
    ensures forall e :: e in All(cs, at) ==>
              |e.path| > |at| && e.path[..|at|] == at && exists k :: 0 <= k < |cs| && cs[k].name == e.path[|at|]
    decreases cs, 1
  {
    if cs != [] {
      AllLieBelow(cs[1..], at);
      HereLiesBelow(cs[0], at);
      hide Here;
      forall e | e in All(cs, at)
        ensures |e.path| > |at| && e.path[..|at|] == at && exists k :: 0 <= k < |cs| && cs[k].name == e.path[|at|]
      {
        if e in Here(cs[0], at) {
          assert cs[0].name == e.path[|at|];
        } else {
          var k :| 0 <= k < |cs[1..]| && cs[1..][k].name == e.path[|at|];
          assert cs[k + 1].name == e.path[|at|];
        }
      }
    }
  }

  lemma {:induction false} HereLiesBelow(c: Child, at: Path)
    ensures forall e :: e in Here(c, at) ==> |e.path| > |at| && e.path[..|at|] == at && c.name == e.path[|at|]
    decreases c, 0
  {
    if c.node.Directory? {
      var below := at + [c.name];
      AllLieBelow(c.node.children, below);
      forall e | e in Here(c, at) ensures |e.path| > |at| && e.path[..|at|] == at && c.name == e.path[|at|] {
        assert e.path[..|below|] == below;
        assert e.path[..|at|] == below[..|at|] && e.path[|at|] == below[|at|];
      }
    }
  }

  /** Nothing below an excluded directory is retained. */
  lemma NothingKept(cs: seq<Child>, at: Path)
    requires DirectoryExcluded(at)
    ensures Kept(All(cs, at)) == []
  {
    AllLieBelow(cs, at);
    KeptMembers(All(cs, at));
    var i :| 0 <= i < |at| && PartExcluded(at[i]);
    hide All, Kept;
    forall e | e in All(cs, at) ensures !Retained(e) {
      assert e.path[..|at|][i] == at[i];
      assert e.path[i] == at[i];
      assert e.path[..|e.path| - 1][i] == at[i];
    }
    NoneKept(All(cs, at));
  }

  /** What one child adds to the walk. */
  function One(c: Child, at: Path): seq<Entry> {
    if c.node.Directory? then if DirectoryExcluded(at + [c.name]) then [] else Walk(c.node.children, at + [c.name])
    else if Retained(Entry(at + [c.name], c.node)) then [Entry(at + [c.name], c.node)] else []
  }

  lemma WalkSplits(cs: seq<Child>, at: Path)
    requires cs != [] && !DirectoryExcluded(at)
    ensures multiset(Walk(cs, at)) == multiset(One(cs[0], at)) + multiset(Walk(cs[1..], at))
  {
    var rest := cs[1..];
    var l, f, d := LinkEntries(rest, at), FileEntries(rest, at), Deeper(rest, at);
    WalkIs(cs, at);
    WalkIs(rest, at);
    FirstParts(cs, at);
    hide *;
    AddToFirst(One(cs[0], at), l, f, d);
    AddToSecond(One(cs[0], at), l, f, d);
    AddToThird(One(cs[0], at), l, f, d);
  }

  lemma AddToFirst(x: seq<Entry>, a: seq<Entry>, b: seq<Entry>, c: seq<Entry>)
    ensures multiset((x + a) + b + c) == multiset(x) + multiset(a + b + c)
  {
  }

  lemma AddToSecond(x: seq<Entry>, a: seq<Entry>, b: seq<Entry>, c: seq<Entry>)
    ensures multiset(a + (x + b) + c) == multiset(x) + multiset(a + b + c)
  {
  }

  lemma AddToThird(x: seq<Entry>, a: seq<Entry>, b: seq<Entry>, c: seq<Entry>)
    ensures multiset(a + b + (x + c)) == multiset(x) + multiset(a + b + c)
  {
  }

  lemma WalkIs(cs: seq<Child>, at: Path)
    ensures Walk(cs, at) == LinkEntries(cs, at) + FileEntries(cs, at) + Deeper(cs, at)
  {
  }

  /** The first child contributes to exactly one of the three lists. */
  lemma FirstParts(cs: seq<Child>, at: Path)
    requires cs != [] && !DirectoryExcluded(at)
    ensures var rest, x := cs[1..], One(cs[0], at);
            var l, f, d := LinkEntries(rest, at), FileEntries(rest, at), Deeper(rest, at);
            || Walk(cs, at) == (x + l) + f + d
            || Walk(cs, at) == l + (x + f) + d
            || Walk(cs, at) == l + f + (x + d)
  {
    var rest, x, n := cs[1..], One(cs[0], at), cs[0].node;
    var l, f, d := LinkEntries(rest, at), FileEntries(rest, at), Deeper(rest, at);
    hide Excluded, DirectoryExcluded, Walk;
    WalkIs(cs, at);
    assert [] + l == l && [] + f == f && [] + d == d;
    if n.Directory? {
      assert LinkEntries(cs, at) == l && FileEntries(cs, at) == f && Deeper(cs, at) == x + d;
    } else if n.Link? && n.toDirectory {
      assert LinkEntries(cs, at) == x + l && FileEntries(cs, at) == f && Deeper(cs, at) == d;
    } else {
      assert LinkEntries(cs, at) == l && FileEntries(cs, at) == x + f && Deeper(cs, at) == d;
    }
  }

  /** The pruned walk lists exactly the entries the path filter retains, each once. */
  lemma {:induction false} WalkIsFilter(cs: seq<Child>, at: Path)
    requires !DirectoryExcluded(at)
    ensures multiset(Walk(cs, at)) == multiset(Kept(All(cs, at)))
    decreases cs, 1
  {
    if cs != [] {
      WalkSplits(cs, at);
      KeptConcat(Here(cs[0], at), All(cs[1..], at));
      OneIsFilter(cs[0], at);
      WalkIsFilter(cs[1..], at);
      assert All(cs, at) == Here(cs[0], at) + All(cs[1..], at);
      hide Walk, Kept, Here, One;
    } else {
      assert Walk(cs, at) == [];
    }
  }

  lemma {:induction false} OneIsFilter(c: Child, at: Path)
    requires !DirectoryExcluded(at)
    ensures multiset(One(c, at)) == multiset(Kept(Here(c, at)))
    decreases c, 0
  {
    if c.node.Directory? {
      if DirectoryExcluded(at + [c.name]) {
        NothingKept(c.node.children, at + [c.name]);
      } else {
        WalkIsFilter(c.node.children, at + [c.name]);
      }
    } else {
      var e := Entry(at + [c.name], c.node);
      assert Kept([e]) == (if Retained(e) then [e] else []) + Kept([e][1..]);
    }
    hide Walk, DirectoryExcluded, Retained;
  }

  // ---------- the walk against the file rule ----------

  /** `_excluded` applied to every entry alike. */
  predicate FileRule(e: Entry) { e.path != [] && !Excluded(e.path) }

  function Admitted(es: seq<Entry>): seq<Entry> {
    if es == [] then [] else (if FileRule(es[0]) then [es[0]] else []) + Admitted(es[1..])
  }

  /** A link to a directory, outside excluded directories, whose own name is excluded by exactly one of the two rules: as a
      directory name or as a file name. */
  predicate JudgedDifferently(e: Entry) {
    && e.node.Link? && e.node.toDirectory && e.path != [] && !DirectoryExcluded(e.path[..|e.path| - 1])
    && (PartExcluded(e.path[|e.path| - 1]) <==> e.path[|e.path| - 1] !in EXCLUDED_FILES)
  }

  lemma LastPart(path: Path)
    requires path != []
    ensures DirectoryExcluded(path) <==> DirectoryExcluded(path[..|path| - 1]) || PartExcluded(path[|path| - 1])
  {
    hide PartExcluded;
    var front := path[..|path| - 1];
    if i :| 0 <= i < |front| && PartExcluded(front[i]) {
      assert path[i] == front[i];
    }
    if i :| 0 <= i < |path| && PartExcluded(path[i]) {
      assert i < |front| ==> front[i] == path[i];
    }
  }

  lemma RulesDifferExactly(e: Entry)
    ensures JudgedDifferently(e) <==> Retained(e) != FileRule(e)
  {
    if e.path != [] {
      LastPart(e.path);
    }
    hide DirectoryExcluded, PartExcluded, EXCLUDED_FILES;
  }

  lemma {:induction false} AdmittedMembers(es: seq<Entry>)
    ensures forall e :: e in Admitted(es) <==> e in es && FileRule(e)
  {
    if es != [] {
      AdmittedMembers(es[1..]);
      hide FileRule;
    }
  }

  lemma {:induction false} SameWhereRulesAgree(es: seq<Entry>)
    requires forall e :: e in es ==> (Retained(e) <==> FileRule(e))
    ensures Kept(es) == Admitted(es)
  {
    if es != [] {
      assert es[0] in es;
      hide Retained, FileRule;
      SameWhereRulesAgree(es[1..]);
    }
  }

  /** For every tree, the walk lists what the file rule alone would admit if and only if no link to a directory is judged
      differently by the two rules. */
  lemma WalkIsFileRuleExactly(cs: seq<Child>, at: Path)
    requires !DirectoryExcluded(at)
    ensures multiset(Walk(cs, at)) == multiset(Admitted(All(cs, at))) <==> forall e :: e in All(cs, at) ==> !JudgedDifferently(e)
  {
    var es := All(cs, at);
    hide *;
    WalkIsFilter(cs, at);
    KeptMembers(es);
    AdmittedMembers(es);
    forall e: Entry ensures JudgedDifferently(e) <==> Retained(e) != FileRule(e) {
      RulesDifferExactly(e);
    }
    if forall e :: e in es ==> !JudgedDifferently(e) {
      SameWhereRulesAgree(es);
    }
    if multiset(Kept(es)) == multiset(Admitted(es)) {
      forall e | e in es ensures !JudgedDifferently(e) {
        assert e in Kept(es) <==> e in multiset(Kept(es));
        assert e in Admitted(es) <==> e in multiset(Admitted(es));
      }
    }
  }

  /** A link to a directory named like a solver's processor directory, next to anything else, is such a link: the file rule
      admits it and the walk drops it. */
  lemma ProcessorLinkDropped(cs: seq<Child>, target: Bytes)
    ensures var e := Entry(["processor0"], Link(target, true, true));
            && e in All([Child("processor0", e.node)] + cs, []) && JudgedDifferently(e) && FileRule(e) && !Retained(e)
  {
    var e := Entry(["processor0"], Link(target, true, true));
    var c := Child("processor0", e.node);
    assert [] + ["processor0"] == ["processor0"] && e.path[..0] == [];
    assert Here(c, []) == [e] && ([c] + cs)[0] == c;
    assert "processor" <= "processor0" && PartExcluded("processor0");
    NotAFileName();
    RulesDifferExactly(e);
    hide EXCLUDED_FILES, EXCLUDED_DIRECTORIES;
  }

  lemma NotAFileName()
    ensures "processor0" !in EXCLUDED_FILES
  {
    assert "processor0"[0] != '.';
  }

  /** The filter in full, for a regular file: its name is none of the four deployment files, and no directory above it is one of these
      or is named like a build output or a solver processor directory. */
  lemma RetainedInFull(e: Entry)
    requires e.node.File? && e.path != []
    ensures Retained(e) <==>
              && e.path[|e.path| - 1] !in {".env", ".env.deploy", ".env.local", ".deployment-source.json"}
              && forall i :: 0 <= i < |e.path| - 1 ==>
                   && e.path[i] !in {".git", ".github", ".ssh", ".codex", ".pytest_cache", ".venv", "venv", "__pycache__", "node_modules",
                                     ".next", ".next-build", ".pnpm-store", "coverage", "data", "VTK", "postProcessing",
                                     ".codex-artifacts", ".codex-db-backups", ".devcoordinator", "test-results", ".serena"}
                   && !StartsWith(e.path[i], ".next-") && !StartsWith(e.path[i], "processor")
  {
    var front := e.path[..|e.path| - 1];
    forall i | 0 <= i < |front| ensures PartExcluded(front[i]) <==> e.path[i] in EXCLUDED_DIRECTORIES || StartsWith(e.path[i], ".next-") || StartsWith(e.path[i], "processor") {
      assert front[i] == e.path[i];
    }
  }

  predicate StartsWith(s: string, prefix: string) { |prefix| <= |s| && s[..|prefix|] == prefix }
}
