/** The deployment manifest: the digest of a source tree, creating the manifest inside that tree, and verifying it later. */
module SourceManifest {

  import opened Characters
  import opened Wrappers
  import opened Partial
  import opened SourceStream
  import opened SourceTree

  // ---------- paths as strings ----------

  predicate Name(s: string) { s != "" && '/' !in s }

  predicate Names(path: Path) { path != [] && forall i :: 0 <= i < |path| ==> Name(path[i]) }

  /** What the directory listing guarantees of a path: a component or more, none empty, none with a slash. */
  lemma NamesAre(path: Path)
    ensures Names(path) <==> |path| >= 1 && forall i :: 0 <= i < |path| ==> |path[i]| >= 1 && forall j :: 0 <= j < |path[i]| ==> path[i][j] != '/'
  {
  }

  /** `as_posix`. */
  function Posix(path: Path): string
    requires path != []
  {
    if |path| == 1 then path[0] else path[0] + "/" + Posix(path[1..])
  }

  function Slash(s: string): (n: nat)
    ensures n <= |s|
  {
    if s == [] || s[0] == '/' then 0 else 1 + Slash(s[1..])
  }

  lemma {:induction false} SlashIn(name: string, rest: string)
    requires '/' !in name
    ensures Slash(name + "/" + rest) == |name| && Slash(name) == |name|
  {
    if name != [] {
      assert name[0] in name;
      assert (name + "/" + rest)[1..] == name[1..] + "/" + rest;
      SlashIn(name[1..], rest);
    }
  }

  lemma {:induction false} PosixIsInjective(a: Path, b: Path)
    requires Names(a) && Names(b) && Posix(a) == Posix(b)
    ensures a == b
  {
    assert Name(a[0]) && Name(b[0]);
    PosixStarts(a);
    PosixStarts(b);
    var s := Posix(a);
    hide Posix, Slash;
    assert |a[0]| == Slash(s) == |b[0]|;
    assert s[..|a[0]|] == a[0] && s[..|b[0]|] == b[0];
    if |a| > 1 {
      assert s[|a[0]| + 1..] == Posix(a[1..]) && s[|b[0]| + 1..] == Posix(b[1..]);
      PosixIsInjective(a[1..], b[1..]);
      assert a == [a[0]] + a[1..] && b == [b[0]] + b[1..];
    }
  }

  lemma PosixStarts(a: Path)
    requires Names(a)
    ensures Slash(Posix(a)) == |a[0]| && |a[0]| <= |Posix(a)| && Posix(a)[..|a[0]|] == a[0]
    ensures |a| > 1 <==> |Posix(a)| > |a[0]|
    ensures |a| > 1 ==> Posix(a)[|a[0]| + 1..] == Posix(a[1..])
  {
    assert Name(a[0]);
    if |a| == 1 {
      SlashIn(a[0], "");
    } else {
      SlashIn(a[0], Posix(a[1..]));
    }
  }

  // ---------- the order of the entries ----------

  /** Python's order on strings. */
  predicate Less(a: string, b: string) {
    b != [] && (a == [] || a[0] < b[0] || (a[0] == b[0] && Less(a[1..], b[1..])))
  }

  lemma {:induction false} LessIrreflexive(a: string)
    ensures !Less(a, a)
  {
    if a != [] { LessIrreflexive(a[1..]); }
  }

  lemma {:induction false} LessTransitive(a: string, b: string, c: string)
    requires Less(a, b) && Less(b, c)
    ensures Less(a, c)
  {
    if a != [] && a[0] == b[0] && b[0] == c[0] { LessTransitive(a[1..], b[1..], c[1..]); }
  }

  lemma {:induction false} LessTotal(a: string, b: string)
    requires a != b
    ensures Less(a, b) || Less(b, a)
  {
    if a != [] && b != [] && a[0] == b[0] {
      assert a == [a[0]] + a[1..] && b == [b[0]] + b[1..];
      LessTotal(a[1..], b[1..]);
    }
  }

  function Key(e: Entry): string { if e.path == [] then "" else Posix(e.path) }

  function Insert(e: Entry, es: seq<Entry>): seq<Entry> {
    if es == [] || !Less(Key(es[0]), Key(e)) then [e] + es else [es[0]] + Insert(e, es[1..])
  }

  /** `sorted(entries, key=...)`. */
  function Sort(es: seq<Entry>): seq<Entry> {
    if es == [] then [] else Insert(es[0], Sort(es[1..]))
  }

  ghost predicate StrictlySorted(es: seq<Entry>) { forall i, j :: 0 <= i < j < |es| ==> Less(Key(es[i]), Key(es[j])) }

  ghost predicate DistinctKeys(es: seq<Entry>) { forall i, j :: 0 <= i < j < |es| ==> Key(es[i]) != Key(es[j]) }

  lemma {:induction false} InsertAdds(e: Entry, es: seq<Entry>)
    ensures multiset(Insert(e, es)) == multiset(es) + multiset{e}
  {
    if es == [] || !Less(Key(es[0]), Key(e)) {
    } else {
      InsertAdds(e, es[1..]);
      assert es == [es[0]] + es[1..];
    }
  }

  lemma {:induction false} SortKeeps(es: seq<Entry>)
    ensures multiset(Sort(es)) == multiset(es)
  {
    if es != [] {
      SortKeeps(es[1..]);
      InsertAdds(es[0], Sort(es[1..]));
      assert es == [es[0]] + es[1..];
    }
  }

  lemma PrependSorted(e: Entry, rest: seq<Entry>)
    requires StrictlySorted(rest) && forall i :: 0 <= i < |rest| ==> Less(Key(e), Key(rest[i]))
    ensures StrictlySorted([e] + rest)
  {
    hide Less, Key;
  }

  /** Inserting a new key keeps the order strict. */
  lemma {:induction false} InsertSorts(e: Entry, es: seq<Entry>)
    requires StrictlySorted(es) && forall i :: 0 <= i < |es| ==> Key(es[i]) != Key(e)
    ensures StrictlySorted(Insert(e, es))
  {
    if es == [] || !Less(Key(es[0]), Key(e)) {
      if es != [] {
        LessTotal(Key(es[0]), Key(e));
        hide Less, Key;
        forall i | 0 <= i < |es| ensures Less(Key(e), Key(es[i])) {
          if i > 0 { LessTransitive(Key(e), Key(es[0]), Key(es[i])); }
        }
      }
      PrependSorted(e, es);
    } else {
      var rest := Insert(e, es[1..]);
      assert Insert(e, es) == [es[0]] + rest;
      InsertAdds(e, es[1..]);
      forall i | 0 <= i < |rest| ensures Less(Key(es[0]), Key(rest[i])) {
        assert rest[i] in multiset(rest);
        if rest[i] != e {
          assert rest[i] in es[1..];
          var k :| 0 <= k < |es[1..]| && es[1..][k] == rest[i];
          assert es[k + 1] == rest[i];
        }
      }
      assert StrictlySorted(es[1..]);
      hide Insert, Less, Key, StrictlySorted;
      InsertSorts(e, es[1..]);
      PrependSorted(es[0], rest);
    }
  }

  /** Each entry once, and one entry for each key. */
  ghost predicate Distinct(es: multiset<Entry>) {
    && (forall e :: e in es ==> es[e] <= 1)
    && (forall a, b :: a in es && b in es && Key(a) == Key(b) ==> a == b)
  }

  lemma {:induction false} DistinctAsMultiset(es: seq<Entry>)
    requires DistinctKeys(es)
    ensures Distinct(multiset(es))
  {
    if es == [] {
      DistinctNothing();
    } else {
      DistinctKeysRest(es);
      hide *;
      DistinctAsMultiset(es[1..]);
      DistinctAdds(multiset(es[1..]), es[0]);
      assert es == [es[0]] + es[1..];
      assert multiset(es) == multiset(es[1..]) + multiset{es[0]};
    }
  }

  lemma DistinctNothing()
    ensures Distinct(multiset([]))
  {
  }

  lemma DistinctKeysRest(es: seq<Entry>)
    requires es != [] && DistinctKeys(es)
    ensures DistinctKeys(es[1..]) && forall e :: e in multiset(es[1..]) ==> Key(e) != Key(es[0])
  {
    var rest := es[1..];
    hide Key;
    assert forall i :: 0 <= i < |rest| ==> rest[i] == es[i + 1];
    forall e | e in multiset(rest) ensures Key(e) != Key(es[0]) {
      assert e in rest;
      var k :| 0 <= k < |rest| && rest[k] == e;
      assert es[k + 1] == e;
    }
  }

  lemma DistinctAdds(es: multiset<Entry>, x: Entry)
    requires Distinct(es) && forall e :: e in es ==> Key(e) != Key(x)
    ensures Distinct(es + multiset{x})
  {
    hide Key;
  }

  lemma DistinctDrops(es: seq<Entry>)
    requires es != [] && Distinct(multiset(es))
    ensures Distinct(multiset(es[1..]))
    ensures forall e :: e in multiset(es[1..]) ==> Key(e) != Key(es[0])
  {
    hide Key;
    var all, rest := multiset(es), multiset(es[1..]);
    assert es == [es[0]] + es[1..];
    assert all == rest + multiset{es[0]};
    assert es[0] in all && all[es[0]] == 1;
    assert forall e :: e in rest ==> e in all && rest[e] <= all[e];
  }

  /** Distinct entries are sorted strictly. */
  lemma {:induction false} SortSorts(es: seq<Entry>)
    requires Distinct(multiset(es))
    ensures StrictlySorted(Sort(es))
  {
    if es != [] {
      var rest := Sort(es[1..]);
      SortKeeps(es[1..]);
      DistinctDrops(es);
      assert Sort(es) == Insert(es[0], rest);
      hide Sort, Insert, Key, Distinct;
      SortSorts(es[1..]);
      forall i | 0 <= i < |rest| ensures Key(rest[i]) != Key(es[0]) {
        assert rest[i] in multiset(rest);
      }
      InsertSorts(es[0], rest);
    }
  }

  // ---------- records ----------

  function RecordOf(e: Entry): Option<Record> {
    match e.node
    case File(payload, executable) => Some(Record("file", Key(e), executable, payload))
    case Link(target, executable, _) => Some(Record("symlink", Key(e), executable, target))
    case _ => None
  }

  /** The records of the entries in order; an entry of another kind is unsupported. */
  function RecordsOf(es: seq<Entry>): Option<seq<Record>> {
    if es == [] then Some([])
    else
      var r, rest := RecordOf(es[0]), RecordsOf(es[1..]);
      if r == None || rest == None then None else Some([r.value] + rest.value)
  }

  /** What the digest of a tree is fed: the records of the retained entries in path order. */
  function Records(cs: seq<Child>): Option<seq<Record>> { RecordsOf(Sort(Walk(cs, []))) }

  /** `_source_tree`: one pass that feeds the digest and counts. */
  method DigestTree(cs: seq<Child>, sha: Bytes -> Bytes) returns (r: Result<(Bytes, nat)>)
    ensures r == match Records(cs) case None => Err case Some(rs) => Ok((sha(Stream(rs)), |rs|))
  {
    var entries := Sort(Walk(cs, []));
    var fed: Bytes, count := [], 0;
    ghost var done: seq<Record> := [];
    assert entries[..0] == [];
    hide Sort, Walk, Encode, RecordOf;
    while count < |entries|
      invariant count <= |entries| && RecordsOf(entries[..count]) == Some(done) && |done| == count && fed == Stream(done)
    {
      var record := RecordOf(entries[count]);
      RecordsAppend(entries, count);
      if record == None {
        RecordsNeedAll(entries, count + 1);
        return Err;
      }
      fed := fed + Encode(record.value);
      StreamAppends(done, record.value);
      done := done + [record.value];
      count := count + 1;
    }
    assert entries[..count] == entries;
    r := Ok((sha(fed), count));
  }

  lemma {:induction false} RecordsConcat(a: seq<Entry>, b: seq<Entry>)
    ensures RecordsOf(a + b) == if RecordsOf(a) == None || RecordsOf(b) == None then None
                                else Some(RecordsOf(a).value + RecordsOf(b).value)
  {
    if a == [] {
      assert a + b == b;
      assert RecordsOf(b).Some? ==> [] + RecordsOf(b).value == RecordsOf(b).value;
    } else {
      assert (a + b)[1..] == a[1..] + b;
      RecordsConcat(a[1..], b);
      hide RecordOf;
      if RecordOf(a[0]).Some? && RecordsOf(a[1..]).Some? && RecordsOf(b).Some? {
        var x, y, z := [RecordOf(a[0]).value], RecordsOf(a[1..]).value, RecordsOf(b).value;
        assert x + (y + z) == (x + y) + z;
      }
    }
  }

  lemma RecordsAppend(es: seq<Entry>, n: nat)
    requires n < |es|
    ensures RecordsOf(es[..n + 1]) == if RecordsOf(es[..n]) == None || RecordOf(es[n]) == None then None
                                      else Some(RecordsOf(es[..n]).value + [RecordOf(es[n]).value])
  {
    assert es[..n + 1] == es[..n] + [es[n]];
    RecordsConcat(es[..n], [es[n]]);
    OneRecordOf(es[n]);
    hide RecordsOf, RecordOf;
  }

  lemma OneRecordOf(e: Entry)
    ensures RecordsOf([e]) == if RecordOf(e) == None then None else Some([RecordOf(e).value])
  {
    assert [e][1..] == [] && RecordsOf([e][1..]) == Some([]);
    assert RecordOf(e).Some? ==> [RecordOf(e).value] + [] == [RecordOf(e).value];
    hide RecordOf;
  }

  lemma RecordsNeedAll(es: seq<Entry>, n: nat)
    requires n <= |es| && RecordsOf(es[..n]) == None
    ensures RecordsOf(es) == None
  {
    assert es == es[..n] + es[n..];
    RecordsConcat(es[..n], es[n..]);
  }

  // ---------- well-formed trees ----------

  /** Names are proper file names and distinct within a directory. */
  ghost predicate WellFormed(cs: seq<Child>) {
    && (forall i :: 0 <= i < |cs| ==> Name(cs[i].name))
    && (forall i, j :: 0 <= i < j < |cs| ==> cs[i].name != cs[j].name)
    && (forall i :: 0 <= i < |cs| && cs[i].node.Directory? ==> WellFormed(cs[i].node.children))
  }

  ghost predicate DistinctPaths(es: seq<Entry>) { forall i, j :: 0 <= i < j < |es| ==> es[i].path != es[j].path }

  ghost predicate ProperPaths(es: seq<Entry>) { forall e :: e in es ==> Names(e.path) }

  lemma WellFormedRest(cs: seq<Child>)
    requires cs != [] && WellFormed(cs)
    ensures WellFormed(cs[1..]) && Name(cs[0].name) && (cs[0].node.Directory? ==> WellFormed(cs[0].node.children))
    ensures forall k :: 0 <= k < |cs[1..]| ==> cs[1..][k].name != cs[0].name
  {
    var rest := cs[1..];
    assert forall i :: 0 <= i < |rest| ==> rest[i] == cs[i + 1];
    forall k | 0 <= k < |rest| ensures rest[k].name != cs[0].name {
      assert cs[0].name != cs[k + 1].name;
    }
  }

  /** No two entries share a path, and every path is made of names. */
  lemma {:induction false} AllAreDistinct(cs: seq<Child>, at: Path)
    requires WellFormed(cs) && (forall i :: 0 <= i < |at| ==> Name(at[i]))
    ensures DistinctPaths(All(cs, at)) && ProperPaths(All(cs, at))
    decreases cs
  {
    if cs != [] {
      var c, rest := cs[0], cs[1..];
      WellFormedRest(cs);
      AllSplits(cs, at);
      HereIsDistinct(c, at);
      AllAreDistinct(rest, at);
      HereLiesBelow(c, at);
      AllLieBelow(rest, at);
      hide *;
      ConcatDistinct(Here(c, at), All(rest, at), c.name, |at|);
    } else {
      assert All(cs, at) == [];
    }
  }

  lemma AllSplits(cs: seq<Child>, at: Path)
    requires cs != []
    ensures All(cs, at) == Here(cs[0], at) + All(cs[1..], at)
  {
  }

  lemma {:induction false} HereIsDistinct(c: Child, at: Path)
    requires Name(c.name) && (c.node.Directory? ==> WellFormed(c.node.children)) && (forall i :: 0 <= i < |at| ==> Name(at[i]))
    ensures DistinctPaths(Here(c, at)) && ProperPaths(Here(c, at))
    decreases c
  {
    if c.node.Directory? {
      AllAreDistinct(c.node.children, at + [c.name]);
    }
  }

  lemma ConcatDistinct(a: seq<Entry>, b: seq<Entry>, name: string, n: nat)
    requires DistinctPaths(a) && DistinctPaths(b) && ProperPaths(a) && ProperPaths(b)
    requires forall e :: e in a ==> |e.path| > n && e.path[n] == name
    requires forall e :: e in b ==> |e.path| > n && e.path[n] != name
    ensures DistinctPaths(a + b) && ProperPaths(a + b)
  {
    hide Names;
    forall i, j | 0 <= i < j < |a + b| ensures (a + b)[i].path != (a + b)[j].path {
      if i < |a| && |a| <= j {
        assert a[i] in a && b[j - |a|] in b;
      }
    }
  }

  lemma {:induction false} KeptIsDistinct(es: seq<Entry>)
    requires DistinctPaths(es) && ProperPaths(es)
    ensures DistinctKeys(Kept(es)) && ProperPaths(Kept(es))
  {
    if es == [] {
      assert Kept(es) == [];
    } else {
      var rest := Kept(es[1..]);
      KeptFirst(es);
      KeptMembers(es[1..]);
      hide Kept, Retained, Names;
      assert es[0] in es && DistinctPaths(es[1..]) && ProperPaths(es[1..]);
      KeptIsDistinct(es[1..]);
      forall i | 0 <= i < |rest| ensures Key(es[0]) != Key(rest[i]) {
        assert rest[i] in rest && rest[i] in es[1..];
        var k :| 0 <= k < |es[1..]| && es[1..][k] == rest[i];
        assert es[0].path != es[k + 1].path;
        KeysDiffer(es[0], rest[i]);
      }
    }
  }

  lemma KeysDiffer(a: Entry, b: Entry)
    requires Names(a.path) && Names(b.path) && a.path != b.path
    ensures Key(a) != Key(b)
  {
    if Key(a) == Key(b) { PosixIsInjective(a.path, b.path); }
  }

  /** The retained entries of a tree. */
  function RetainedOf(cs: seq<Child>): seq<Entry> { Kept(All(cs, [])) }

  /** The sorted walk is strictly ordered by path and lists exactly the retained entries. */
  lemma SortedWalk(cs: seq<Child>)
    requires WellFormed(cs)
    ensures StrictlySorted(Sort(Walk(cs, []))) && multiset(Sort(Walk(cs, []))) == multiset(RetainedOf(cs))
  {
    assert RetainedOf(cs) == Kept(All(cs, []));
    assert !DirectoryExcluded([]);
    hide *;
    AllAreDistinct(cs, []);
    KeptIsDistinct(All(cs, []));
    DistinctAsMultiset(RetainedOf(cs));
    WalkIsFilter(cs, []);
    SortKeeps(Walk(cs, []));
    SortSorts(Walk(cs, []));
  }

  // ---------- what the digest identifies ----------

  /** The retained entries as records, in no order. */
  ghost function RecordSet(cs: seq<Child>): set<Record> {
    set e | e in RetainedOf(cs) && RecordOf(e).Some? :: RecordOf(e).value
  }

  ghost predicate SortedRecords(rs: seq<Record>) { forall i, j :: 0 <= i < j < |rs| ==> Less(rs[i].path, rs[j].path) }

  lemma {:induction false} RecordsAre(es: seq<Entry>)
    requires RecordsOf(es).Some?
    ensures |RecordsOf(es).value| == |es|
    ensures forall i :: 0 <= i < |es| ==> RecordOf(es[i]) == Some(RecordsOf(es).value[i])
  {
    if es != [] {
      RecordsAre(es[1..]);
      hide RecordOf;
      forall i | 0 <= i < |es| ensures RecordOf(es[i]) == Some(RecordsOf(es).value[i]) {
        if i > 0 { assert es[i] == es[1..][i - 1]; }
      }
    }
  }

  /** The records of a tree are strictly ordered by path and are exactly its record set; their number is the retained entries'. */
  lemma RecordsFacts(cs: seq<Child>)
    requires WellFormed(cs) && Records(cs).Some?
    ensures SortedRecords(Records(cs).value)
    ensures forall r :: r in Records(cs).value <==> r in RecordSet(cs)
    ensures |Records(cs).value| == |RetainedOf(cs)|
  {
    SortedWalk(cs);
    var es, rs := Sort(Walk(cs, [])), Records(cs).value;
    RecordsAre(es);
    var kept := RetainedOf(cs);
    hide Walk, Sort, RecordsOf, RetainedOf;
    RecordsMatch(es, rs, kept);
    assert RecordSet(cs) == set e | e in kept && RecordOf(e).Some? :: RecordOf(e).value;
  }

  lemma RecordsMatch(es: seq<Entry>, rs: seq<Record>, kept: seq<Entry>)
    requires StrictlySorted(es) && |rs| == |es| && (forall i :: 0 <= i < |es| ==> RecordOf(es[i]) == Some(rs[i]))
    requires multiset(es) == multiset(kept)
    ensures SortedRecords(rs) && |rs| == |kept|
    ensures forall r :: r in rs <==> r in set e | e in kept && RecordOf(e).Some? :: RecordOf(e).value
  {
    assert |multiset(es)| == |es| && |multiset(kept)| == |kept|;
    forall i | 0 <= i < |es| ensures rs[i].path == Key(es[i]) {
      RecordPath(es[i]);
    }
    hide Less, Key, RecordOf;
    forall r | r in rs ensures r in set e | e in kept && RecordOf(e).Some? :: RecordOf(e).value {
      var i :| 0 <= i < |rs| && rs[i] == r;
      assert es[i] in multiset(es);
      assert es[i] in kept;
    }
    forall e | e in kept && RecordOf(e).Some? ensures RecordOf(e).value in rs {
      assert e in multiset(kept);
      assert e in es;
      var i :| 0 <= i < |es| && es[i] == e;
      assert rs[i] == RecordOf(e).value;
    }
  }

  lemma RecordPath(e: Entry)
    ensures RecordOf(e).Some? ==> RecordOf(e).value.path == Key(e)
  {
    hide Key;
  }

  /** Strictly ordered records are determined by their set. */
  lemma {:induction false} OneList(xs: seq<Record>, ys: seq<Record>)
    requires SortedRecords(xs) && SortedRecords(ys) && forall r :: r in xs <==> r in ys
    ensures xs == ys
  {
    assert (xs != [] ==> xs[0] in xs) && (ys != [] ==> ys[0] in ys);
    if xs != [] && ys != [] {
      FirstAgrees(xs, ys);
      RestAgrees(xs, ys);
      OneList(xs[1..], ys[1..]);
      assert xs == [xs[0]] + xs[1..] && ys == [ys[0]] + ys[1..];
    }
  }

  lemma FirstAgrees(xs: seq<Record>, ys: seq<Record>)
    requires xs != [] && ys != [] && SortedRecords(xs) && SortedRecords(ys) && forall r :: r in xs <==> r in ys
    ensures xs[0] == ys[0]
  {
    assert xs[0] in ys && ys[0] in xs;
    var i :| 0 <= i < |ys| && ys[i] == xs[0];
    var j :| 0 <= j < |xs| && xs[j] == ys[0];
    if i > 0 && j > 0 {
      LessTransitive(xs[0].path, xs[j].path, ys[i].path);
      LessIrreflexive(xs[0].path);
    }
    hide Less;
  }

  lemma RestAgrees(xs: seq<Record>, ys: seq<Record>)
    requires xs != [] && ys != [] && xs[0] == ys[0] && SortedRecords(xs) && SortedRecords(ys) && forall r :: r in xs <==> r in ys
    ensures SortedRecords(xs[1..]) && SortedRecords(ys[1..]) && forall r :: r in xs[1..] <==> r in ys[1..]
  {
    FirstIsAlone(xs);
    FirstIsAlone(ys);
    hide Less;
  }

  lemma FirstIsAlone(xs: seq<Record>)
    requires xs != [] && SortedRecords(xs)
    ensures SortedRecords(xs[1..]) && forall r :: r in xs[1..] <==> r in xs && r != xs[0]
  {
    LessIrreflexive(xs[0].path);
    hide Less;
    forall r | r in xs && r != xs[0] ensures r in xs[1..] {
      var i :| 0 <= i < |xs| && xs[i] == r;
      assert xs[1..][i - 1] == r;
    }
    forall r | r in xs[1..] ensures r in xs && r != xs[0] {
      var i :| 0 <= i < |xs[1..]| && xs[1..][i] == r;
      assert xs[i + 1] == r && Less(xs[0].path, xs[i + 1].path);
    }
  }

  /** Two trees feed the digest the same bytes exactly when they have the same retained entries. */
  lemma SameStreamExactly(a: seq<Child>, b: seq<Child>)
    requires WellFormed(a) && WellFormed(b) && Records(a).Some? && Records(b).Some?
    ensures Stream(Records(a).value) == Stream(Records(b).value) <==> RecordSet(a) == RecordSet(b)
  {
    RecordsFacts(a);
    RecordsFacts(b);
    var xs, ys := Records(a).value, Records(b).value;
    hide Records, RecordSet, SortedRecords;
    if Stream(xs) == Stream(ys) {
      StreamIsInjective(xs, ys);
      assert forall r :: r in RecordSet(a) <==> r in RecordSet(b);
    }
    if RecordSet(a) == RecordSet(b) {
      OneList(xs, ys);
    }
  }

  // ---------- create and verify ----------

  datatype Manifest = Manifest(revision: string, tree: Bytes, count: nat)

  /** The environment: the hash, and the manifest's text form with its parser. */
  datatype Codec = Codec(sha: Bytes -> Bytes, render: Manifest -> Bytes, parse: Bytes -> Option<Manifest>)

  /** Digests of 64 hexadecimal digits, and text that parses back. */
  ghost predicate Faithful(k: Codec) {
    && (forall a :: Hex(k.sha(a), 64))
    && (forall m :: k.parse(k.render(m)) == Some(m))
  }

  /** The hash tells these two trees apart whenever their byte streams differ. No hash does so for all pairs of trees, so this is
      asked of the two trees compared and of no others. */
  ghost predicate NoCollision(k: Codec, a: seq<Child>, b: seq<Child>) {
    Records(a).Some? && Records(b).Some? && k.sha(Stream(Records(a).value)) == k.sha(Stream(Records(b).value)) ==>
      Stream(Records(a).value) == Stream(Records(b).value)
  }

  function Fresh(path: Path, file: Node): Node
    decreases |path|
  {
    if path == [] then file else Directory([Child(path[0], Fresh(path[1..], file))])
  }

  /** Replaces or adds the file at the path, making missing directories; a directory in its place, or a file in the way, fails. */
  function Put(cs: seq<Child>, path: Path, file: Node): Option<seq<Child>>
    requires path != []
    decreases |path|, |cs|
  {
    if cs == [] then Some([Child(path[0], Fresh(path[1..], file))])
    else if cs[0].name != path[0] then
      match Put(cs[1..], path, file)
      case None => None
      case Some(rest) => Some([cs[0]] + rest)
    else if |path| == 1 then
      if cs[0].node.Directory? then None else Some([Child(path[0], file)] + cs[1..])
    else if !cs[0].node.Directory? then None
    else
      match Put(cs[0].node.children, path[1..], file)
      case None => None
      case Some(children) => Some([Child(path[0], Directory(children))] + cs[1..])
  }

  function Lookup(cs: seq<Child>, path: Path): Option<Node>
    requires path != []
    decreases |path|, |cs|
  {
    if cs == [] then None
    else if cs[0].name != path[0] then Lookup(cs[1..], path)
    else if |path| == 1 then Some(cs[0].node)
    else if cs[0].node.Directory? then Lookup(cs[0].node.children, path[1..])
    else None
  }

  /** `--create`: digest the tree, then write the manifest into it. */
  function Create(k: Codec, cs: seq<Child>, path: Path, revision: string): Option<seq<Child>>
    requires path != []
  {
    match Records(cs)
    case None => None
    case Some(rs) =>
      if !Hex(Lower(revision), 40) then None
      else Put(cs, path, File(k.render(Manifest(Lower(revision), k.sha(Stream(rs)), |rs|)), false))
  }

  /** `--verify`: digest the tree and compare it with the manifest in it. */
  predicate Verifies(k: Codec, cs: seq<Child>, path: Path)
    requires path != []
  {
    && Records(cs).Some? && Lookup(cs, path).Some? && Lookup(cs, path).value.File?
    && var m := k.parse(Lookup(cs, path).value.payload);
    && m.Some? && Hex(m.value.revision, 40) && Hex(m.value.tree, 64) && m.value.count >= 1
    && m.value.tree == k.sha(Stream(Records(cs).value)) && m.value.count == |Records(cs).value|
  }

  // ---------- writing the manifest ----------

  /** The entries after a file is put at a path: that file there, and everything that lay elsewhere. */
  ghost predicate PutsOnly(old_: seq<Entry>, new_: seq<Entry>, path: Path, file: Node) {
    forall e :: e in new_ <==> (e in old_ && e.path != path) || e == Entry(path, file)
  }

  lemma {:induction false} FreshEntries(at: Path, path: Path, file: Node)
    requires Names(path) && file.File?
    ensures Here(Child(path[0], Fresh(path[1..], file)), at) == [Entry(at + path, file)]
    ensures WellFormed([Child(path[0], Fresh(path[1..], file))])
    decreases |path|
  {
    var c := Child(path[0], Fresh(path[1..], file));
    assert Name(path[0]);
    if |path| == 1 {
      assert at + [path[0]] == at + path;
    } else {
      var rest, below := path[1..], at + [path[0]];
      assert rest[1..] == path[1..][1..];
      assert Names(rest) by { assert forall i :: 0 <= i < |rest| ==> rest[i] == path[i + 1]; }
      FreshEntries(below, rest, file);
      var inner := Child(rest[0], Fresh(rest[1..], file));
      assert c.node == Directory([inner]);
      AllOfOne(inner, below);
      assert below + rest == at + path;
    }
  }

  lemma AllOfOne(c: Child, at: Path)
    ensures All([c], at) == Here(c, at)
  {
    assert [c][1..] == [];
    assert Here(c, at) + All([], at) == Here(c, at);
    hide Here;
  }

  /** Names keep their shape. */
  lemma {:induction false} PutNames(cs: seq<Child>, path: Path, file: Node)
    requires Names(path) && Put(cs, path, file).Some?
    ensures forall i :: 0 <= i < |Put(cs, path, file).value| ==>
              var n := Put(cs, path, file).value[i].name; n == path[0] || exists j :: 0 <= j < |cs| && cs[j].name == n
    decreases |cs|
  {
    if cs != [] && cs[0].name != path[0] {
      var rest := Put(cs[1..], path, file).value;
      PutNames(cs[1..], path, file);
      var all := Put(cs, path, file).value;
      assert all == [cs[0]] + rest;
      forall i | 0 <= i < |all| ensures all[i].name == path[0] || exists j :: 0 <= j < |cs| && cs[j].name == all[i].name {
        if i == 0 {
          assert cs[0].name == all[0].name;
        } else if all[i].name != path[0] {
          assert all[i] == rest[i - 1];
          var j :| 0 <= j < |cs[1..]| && cs[1..][j].name == all[i].name;
          assert cs[j + 1].name == all[i].name;
        }
      }
    } else if cs != [] {
      var all := Put(cs, path, file).value;
      forall i | 0 < i < |all| ensures exists j :: 0 <= j < |cs| && cs[j].name == all[i].name {
        assert all[i] == cs[i];
      }
    }
  }

  lemma WellFormedCons(c: Child, rest: seq<Child>)
    requires Name(c.name) && WellFormed(rest) && (c.node.Directory? ==> WellFormed(c.node.children))
    requires forall i :: 0 <= i < |rest| ==> rest[i].name != c.name
    ensures WellFormed([c] + rest)
  {
    var all := [c] + rest;
    assert forall i :: 0 < i < |all| ==> all[i] == rest[i - 1];
  }

  /** Entries below one child, and entries below the others, cannot share a path that goes through it. */
  lemma OthersElsewhere(rest: seq<Child>, at: Path, path: Path)
    requires path != [] && forall k :: 0 <= k < |rest| ==> rest[k].name != path[0]
    ensures forall e :: e in All(rest, at) ==> e.path != at + path
  {
    AllLieBelow(rest, at);
    hide All;
    forall e | e in All(rest, at) ensures e.path != at + path {
      assert (at + path)[|at|] == path[0];
    }
  }

  lemma {:induction false} PutEntries(cs: seq<Child>, at: Path, path: Path, file: Node)
    requires WellFormed(cs) && Names(path) && file.File? && Put(cs, path, file).Some?
    ensures WellFormed(Put(cs, path, file).value) && Lookup(Put(cs, path, file).value, path) == Some(file)
    ensures PutsOnly(All(cs, at), All(Put(cs, path, file).value, at), at + path, file)
    decreases |path|, |cs|
  {
    if cs == [] {
      PutFresh(at, path, file);
    } else if cs[0].name != path[0] {
      var rest := Put(cs[1..], path, file).value;
      WellFormedRest(cs);
      PutEntries(cs[1..], at, path, file);
      PutNames(cs[1..], path, file);
      PutBehind(cs, rest, at, path, file);
    } else if |path| == 1 {
      PutHere(cs, at, path, file);
    } else {
      var below, deeper := cs[0].node.children, path[1..];
      WellFormedRest(cs);
      NamesRest(path);
      PutEntries(below, at + [path[0]], deeper, file);
      PutBelow(cs, Put(below, deeper, file).value, at, path, file);
    }
  }

  lemma NamesRest(path: Path)
    requires Names(path) && |path| > 1
    ensures Names(path[1..]) && Name(path[0])
  {
    assert forall i :: 0 <= i < |path[1..]| ==> path[1..][i] == path[i + 1];
  }

  lemma PutFresh(at: Path, path: Path, file: Node)
    requires Names(path) && file.File?
    ensures var new_ := [Child(path[0], Fresh(path[1..], file))];
            WellFormed(new_) && Lookup(new_, path) == Some(file) && PutsOnly(All([], at), All(new_, at), at + path, file)
  {
    FreshEntries(at, path, file);
    AllOfOne(Child(path[0], Fresh(path[1..], file)), at);
    FreshLookup(path, file);
    assert All([], at) == [];
    hide Here, Fresh, WellFormed;
  }

  lemma {:induction false} FreshLookup(path: Path, file: Node)
    requires path != []
    ensures Lookup([Child(path[0], Fresh(path[1..], file))], path) == Some(file)
    decreases |path|
  {
    if |path| > 1 {
      FreshLookup(path[1..], file);
    }
  }

  lemma PutBehind(cs: seq<Child>, rest: seq<Child>, at: Path, path: Path, file: Node)
    requires cs != [] && WellFormed(cs) && path != [] && cs[0].name != path[0]
    requires WellFormed(rest) && Lookup(rest, path) == Some(file) && PutsOnly(All(cs[1..], at), All(rest, at), at + path, file)
    requires forall i :: 0 <= i < |rest| ==> rest[i].name == path[0] || exists j :: 0 <= j < |cs[1..]| && cs[1..][j].name == rest[i].name
    ensures WellFormed([cs[0]] + rest) && Lookup([cs[0]] + rest, path) == Some(file)
    ensures PutsOnly(All(cs, at), All([cs[0]] + rest, at), at + path, file)
  {
    WellFormedRest(cs);
    AllSplits(cs, at);
    AllSplits([cs[0]] + rest, at);
    assert ([cs[0]] + rest)[1..] == rest;
    HereLiesBelow(cs[0], at);
    assert (at + path)[|at|] == path[0];
    forall i | 0 <= i < |rest| ensures rest[i].name != cs[0].name {
      if rest[i].name != path[0] {
        var j :| 0 <= j < |cs[1..]| && cs[1..][j].name == rest[i].name;
      }
    }
    WellFormedCons(cs[0], rest);
    hide All, Here, WellFormed;
  }

  lemma PutHere(cs: seq<Child>, at: Path, path: Path, file: Node)
    requires cs != [] && WellFormed(cs) && |path| == 1 && cs[0].name == path[0] && !cs[0].node.Directory? && file.File?
    ensures var new_ := [Child(path[0], file)] + cs[1..];
            WellFormed(new_) && Lookup(new_, path) == Some(file) && PutsOnly(All(cs, at), All(new_, at), at + path, file)
  {
    var new_ := [Child(path[0], file)] + cs[1..];
    WellFormedRest(cs);
    WellFormedCons(Child(path[0], file), cs[1..]);
    AllSplits(cs, at);
    AllSplits(new_, at);
    assert new_[1..] == cs[1..];
    OthersElsewhere(cs[1..], at, path);
    assert at + [path[0]] == at + path;
    hide All, WellFormed;
  }

  lemma PutBelow(cs: seq<Child>, children: seq<Child>, at: Path, path: Path, file: Node)
    requires cs != [] && WellFormed(cs) && |path| > 1 && cs[0].name == path[0] && cs[0].node.Directory?
    requires WellFormed(children) && Lookup(children, path[1..]) == Some(file)
    requires PutsOnly(All(cs[0].node.children, at + [path[0]]), All(children, at + [path[0]]), (at + [path[0]]) + path[1..], file)
    ensures var new_ := [Child(path[0], Directory(children))] + cs[1..];
            WellFormed(new_) && Lookup(new_, path) == Some(file) && PutsOnly(All(cs, at), All(new_, at), at + path, file)
  {
    hide *;
    var old_, rest, below := cs[0].node.children, cs[1..], at + [path[0]];
    var c := Child(path[0], Directory(children));
    WellFormedRest(cs);
    WellFormedCons(c, rest);
    AllSplits(cs, at);
    AllOfCons(c, rest, at);
    HereIs(cs[0], at);
    HereIs(c, at);
    OthersElsewhere(rest, at, path);
    JoinPath(at, path);
    LookupBelow(children, rest, path);
    PutsOnlyFirst(All(old_, below), All(children, below), All(rest, at), at + path, file);
  }

  lemma AllOfCons(c: Child, rest: seq<Child>, at: Path)
    ensures All([c] + rest, at) == Here(c, at) + All(rest, at)
  {
    assert ([c] + rest)[1..] == rest;
    AllSplits([c] + rest, at);
    hide All, Here;
  }

  lemma HereIs(c: Child, at: Path)
    requires c.node.Directory?
    ensures Here(c, at) == All(c.node.children, at + [c.name])
  {
  }

  lemma JoinPath(at: Path, path: Path)
    requires path != []
    ensures (at + [path[0]]) + path[1..] == at + path
  {
  }

  lemma LookupBelow(children: seq<Child>, rest: seq<Child>, path: Path)
    requires |path| > 1
    ensures Lookup([Child(path[0], Directory(children))] + rest, path) == Lookup(children, path[1..])
  {
  }

  lemma PutsOnlyFirst(a: seq<Entry>, b: seq<Entry>, rest: seq<Entry>, path: Path, file: Node)
    requires PutsOnly(a, b, path, file) && forall e :: e in rest ==> e.path != path
    ensures PutsOnly(a + rest, b + rest, path, file)
  {
  }

  /** Once a manifest made from one tree lies in another, verification accepts exactly when the two trees retain the same
      entries, and at least one. */
  lemma VerifyExactly(k: Codec, before: seq<Child>, after: seq<Child>, path: Path, revision: string)
    requires path != [] && Faithful(k) && WellFormed(before) && WellFormed(after) && Records(before).Some? && Hex(Lower(revision), 40)
    requires NoCollision(k, before, after)
    requires var rs := Records(before).value;
             Lookup(after, path) == Some(File(k.render(Manifest(Lower(revision), k.sha(Stream(rs)), |rs|)), false))
    ensures Verifies(k, after, path) <==> Records(after).Some? && |RetainedOf(before)| >= 1 && RecordSet(before) == RecordSet(after)
  {
    RecordsFacts(before);
    var rs := Records(before).value;
    var m := Manifest(Lower(revision), k.sha(Stream(rs)), |rs|);
    assert k.parse(k.render(m)) == Some(m) && Hex(k.sha(Stream(rs)), 64);
    hide Records, Lookup, Hex, RecordSet, RetainedOf;
    if Records(after).Some? {
      RecordsFacts(after);
      SameStreamExactly(before, after);
      if RecordSet(before) == RecordSet(after) {
        StreamIsInjective(rs, Records(after).value);
      }
    }
  }

  /** The retained entries after a file is put at a path that holds no link. */
  lemma PutRetained(cs: seq<Child>, path: Path, file: Node)
    requires WellFormed(cs) && Names(path) && file.File? && Put(cs, path, file).Some?
    requires forall e :: e in All(cs, []) && e.path == path ==> !e.node.Link?
    ensures var new_ := Put(cs, path, file).value;
            && (Excluded(path) ==> RecordSet(new_) == RecordSet(cs))
            && (!Excluded(path) ==> (RecordSet(new_) == RecordSet(cs) <==> Entry(path, file) in All(cs, [])))
  {
    var new_ := Put(cs, path, file).value;
    PutEntries(cs, [], path, file);
    assert [] + path == path;
    AllAreDistinct(cs, []);
    AllAreDistinct(new_, []);
    RecordSetIs(cs);
    RecordSetIs(new_);
    var a, b := All(cs, []), All(new_, []);
    hide All, Put, RecordSet, Excluded;
    if Excluded(path) {
      ExcludedChangesNothing(a, b, path, file);
    } else {
      RetainedAddsOne(a, b, path, file);
    }
  }

  ghost function RecordsIn(es: seq<Entry>): set<Record> {
    set e | e in es && Retained(e) && RecordOf(e).Some? :: RecordOf(e).value
  }

  lemma RecordSetIs(cs: seq<Child>)
    ensures RecordSet(cs) == RecordsIn(All(cs, []))
  {
    KeptMembers(All(cs, []));
    hide All, Kept, Retained, RecordOf;
  }

  lemma ExcludedChangesNothing(a: seq<Entry>, b: seq<Entry>, path: Path, file: Node)
    requires path != [] && Excluded(path) && PutsOnly(a, b, path, file) && file.File?
    requires forall e :: e in a && e.path == path ==> !e.node.Link?
    ensures RecordsIn(a) == RecordsIn(b)
  {
    forall e | e in b && Retained(e) ensures e in a {
      assert e != Entry(path, file);
    }
    forall e | e in a && Retained(e) ensures e in b {
      assert e.path != path;
    }
    hide Excluded, Retained, RecordOf, DirectoryExcluded, PutsOnly;
    assert forall r :: r in RecordsIn(a) <==> r in RecordsIn(b);
  }

  lemma RetainedAddsOne(a: seq<Entry>, b: seq<Entry>, path: Path, file: Node)
    requires path != [] && !Excluded(path) && PutsOnly(a, b, path, file) && file.File? && ProperPaths(a) && ProperPaths(b) && DistinctPaths(a)
    requires forall e :: e in a && e.path == path ==> !e.node.Link?
    ensures RecordsIn(a) == RecordsIn(b) <==> Entry(path, file) in a
  {
    var x := Entry(path, file);
    assert x in b && Retained(x) && RecordOf(x).Some?;
    if x in a {
      forall e | e in b ensures e in a {}
      forall e | e in a ensures e in b {
        if e.path == path { SamePath(a, e, x); }
      }
      hide Excluded, Retained, RecordOf, PutsOnly;
      assert forall r :: r in RecordsIn(a) <==> r in RecordsIn(b);
    }
    if RecordsIn(a) == RecordsIn(b) {
      var r := RecordOf(x).value;
      assert r in RecordsIn(b);
      var e :| e in a && Retained(e) && RecordOf(e).Some? && RecordOf(e).value == r;
      SameRecord(e, x);
    }
  }

  lemma SamePath(es: seq<Entry>, a: Entry, b: Entry)
    requires DistinctPaths(es) && a in es && b in es && a.path == b.path
    ensures a == b
  {
    var i :| 0 <= i < |es| && es[i] == a;
    var j :| 0 <= j < |es| && es[j] == b;
  }

  /** A record of a regular file comes from that file alone. */
  lemma SameRecord(a: Entry, x: Entry)
    requires Names(a.path) && Names(x.path) && x.node.File? && RecordOf(a).Some? && RecordOf(a) == RecordOf(x)
    ensures a == x
  {
    assert Key(a) == Key(x);
    PosixIsInjective(a.path, x.path);
    assert "file" != "symlink" by { assert |"file"| != |"symlink"|; }
  }

  /** Creating a manifest and verifying at once succeeds exactly when the manifest's own path is excluded and something is
      retained, or the file there was already what create writes. */
  lemma CreateThenVerify(k: Codec, cs: seq<Child>, path: Path, revision: string)
    requires Names(path) && Faithful(k) && WellFormed(cs) && Create(k, cs, path, revision).Some?
    requires NoCollision(k, cs, Create(k, cs, path, revision).value)
    requires forall e :: e in All(cs, []) && e.path == path ==> !e.node.Link?
    ensures Records(cs).Some?
    ensures var rs := Records(cs).value;
            var file := File(k.render(Manifest(Lower(revision), k.sha(Stream(rs)), |rs|)), false);
            Verifies(k, Create(k, cs, path, revision).value, path)
            <==> if Excluded(path) then |RetainedOf(cs)| >= 1 else Entry(path, file) in All(cs, [])
  {
    var rs := Records(cs).value;
    var file := File(k.render(Manifest(Lower(revision), k.sha(Stream(rs)), |rs|)), false);
    var after := Put(cs, path, file).value;
    assert Create(k, cs, path, revision) == Some(after) && Hex(Lower(revision), 40);
    hide *;
    PutEntries(cs, [], path, file);
    PutRetained(cs, path, file);
    VerifyExactly(k, cs, after, path, revision);
    SupportedAfter(cs, path, file);
    if !Excluded(path) && Entry(path, file) in All(cs, []) {
      SomethingRetained(cs, Entry(path, file));
    }
  }

  lemma SomethingRetained(cs: seq<Child>, e: Entry)
    requires e in All(cs, []) && e.path != [] && !Excluded(e.path) && e.node.File?
    ensures |RetainedOf(cs)| >= 1
  {
    KeptMembers(All(cs, []));
    assert e in RetainedOf(cs);
  }

  /** Putting a file adds no unsupported entry. */
  lemma SupportedAfter(cs: seq<Child>, path: Path, file: Node)
    requires WellFormed(cs) && Names(path) && file.File? && Put(cs, path, file).Some? && Records(cs).Some?
    ensures Records(Put(cs, path, file).value).Some?
  {
    var new_ := Put(cs, path, file).value;
    PutEntries(cs, [], path, file);
    assert [] + path == path;
    SupportedExactly(cs);
    SupportedExactly(new_);
    hide All, Put, Records, Retained;
  }

  /** Digesting fails only on a retained entry that is neither a regular file nor a link. */
  lemma SupportedExactly(cs: seq<Child>)
    requires WellFormed(cs)
    ensures Records(cs).Some? <==> forall e :: e in All(cs, []) && Retained(e) ==> RecordOf(e).Some?
  {
    SortedWalk(cs);
    KeptMembers(All(cs, []));
    var es := Sort(Walk(cs, []));
    RecordsSomeIff(es);
    var kept := RetainedOf(cs);
    assert kept == Kept(All(cs, [])) && Records(cs) == RecordsOf(es);
    hide Walk, Sort, RecordsOf, Records, RetainedOf, Kept, All, Retained, RecordOf;
    assert forall e :: e in es <==> e in multiset(es);
    assert forall e :: e in kept <==> e in multiset(kept);
  }

  lemma {:induction false} RecordsSomeIff(es: seq<Entry>)
    ensures RecordsOf(es).Some? <==> forall e :: e in es ==> RecordOf(e).Some?
  {
    if es != [] {
      RecordsSomeIff(es[1..]);
      hide RecordOf;
      assert forall e :: e in es <==> e == es[0] || e in es[1..];
    }
  }

  /** A root that retains nothing gets a manifest that can never be verified, in whatever tree it lies: its count of 0 is refused
      on loading. */
  lemma EmptyRootNeverVerifies(k: Codec, cs: seq<Child>, after: seq<Child>, path: Path, revision: string)
    requires Names(path) && Faithful(k) && WellFormed(cs) && RetainedOf(cs) == [] && Create(k, cs, path, revision).Some?
    requires Lookup(after, path) == Lookup(Create(k, cs, path, revision).value, path)
    ensures !Verifies(k, after, path)
  {
    var rs := Records(cs).value;
    var m := Manifest(Lower(revision), k.sha(Stream(rs)), |rs|);
    var file := File(k.render(m), false);
    assert Create(k, cs, path, revision) == Put(cs, path, file);
    assert k.parse(file.payload) == Some(m);
    hide Create, Put, Records, RetainedOf, Lookup, Hex, Stream;
    RecordsFacts(cs);
    PutEntries(cs, [], path, file);
  }

  /** Such a root exists: an empty directory accepts the manifest at its excluded name. */
  lemma EmptyRootIsCreated(k: Codec, revision: string)
    requires Hex(Lower(revision), 40)
    ensures RetainedOf([]) == [] && Create(k, [], [".deployment-source.json"], revision).Some?
  {
    assert Records([]) == Some([]);
    hide Hex;
  }

  // ---------- the hypotheses can be met ----------

  function Text(m: Manifest): Bytes { Field(m.revision) + Field(m.tree) + Field(Decimal(m.count)) }

  function ReadText(s: Bytes): Option<Manifest> {
    var revision := ReadField(s);
    if revision == None then None else
    var tree := ReadField(revision.value.1);
    if tree == None then None else
    var count := ReadField(tree.value.1);
    if count == None then None else Some(Manifest(revision.value.0, tree.value.0, ValueOf(count.value.0)))
  }

  lemma TextReads(m: Manifest)
    ensures ReadText(Text(m)) == Some(m)
  {
    var a, b, c := Field(m.revision), Field(m.tree), Field(Decimal(m.count));
    assert Text(m) == a + (b + (c + []));
    FieldReads(m.revision, b + (c + []));
    FieldReads(m.tree, c + []);
    FieldReads(Decimal(m.count), []);
    DecimalReads(m.count);
    hide Field, Decimal, ReadField, ValueOf;
  }

  /** A digest that singles out one stream. */
  function Marks(marked: Bytes, s: Bytes): Bytes { if s == marked then seq(64, i => '0') else seq(64, i => '1') }

  lemma MarksTells(marked: Bytes, s: Bytes)
    ensures Hex(Marks(marked, s), 64) && (Marks(marked, s) == Marks(marked, marked) ==> s == marked)
  {
    if s != marked { assert Marks(marked, s)[0] != Marks(marked, marked)[0]; }
  }

  /** There are faithful codecs, and for any two trees one that tells them apart: the theorems above speak of something. */
  lemma SomeCodecIsFaithful(a: seq<Child>, b: seq<Child>) returns (k: Codec)
    ensures Faithful(k) && NoCollision(k, a, b)
  {
    var marked: Bytes := if Records(a).Some? then Stream(Records(a).value) else [];
    k := Codec((s: Bytes) => Marks(marked, s), Text, ReadText);
    hide Records, Stream, Marks, Text, ReadText, Hex;
    forall s ensures Hex(k.sha(s), 64) && (k.sha(s) == k.sha(marked) ==> s == marked) {
      MarksTells(marked, s);
    }
    forall m ensures k.parse(k.render(m)) == Some(m) {
      TextReads(m);
    }
  }
}
