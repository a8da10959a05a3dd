/** Reassembling two consecutive solver states from decomposed processor fields: a scatter through cell addressing, against a
    lookup of each cell's owner. */
module ProcessorReassembly {

  import opened Partial

  datatype Field = Rho | U | H | P | K | Omega | RDeltaT

  const FIELDS: seq<Field> := [Rho, U, H, P, K, Omega, RDeltaT]

  /** One cell's value: one component, or three for the velocity. */
  type Cell = seq<real>

  /** A field file: uniform, listed, or failing its format, dimension or width checks. */
  datatype Stored = Uniform(value: Cell) | Listed(values: seq<Cell>) | Malformed

  /** Saved times with the field files in each. */
  type Saved = map<nat, map<Field, Stored>>

  /** A processor directory: which mesh cell each of its own cells is, and its saved times. */
  datatype Processor = Processor(addressing: seq<nat>, saved: Saved)

  /** `load_field` for a mesh of n cells. */
  function Load(s: Stored, n: nat): (r: Result<seq<Cell>>)
    ensures r.Ok? ==> |r.value| == n
  {
    match s
    case Uniform(v) => Ok(seq(n, i => v))
    case Listed(vs) => if |vs| == n then Ok(vs) else Err
    case Malformed => Err
  }

  /** Two states of seven fields: slot k is field k % 7 of state k / 7. */
  const SLOTS := 14

  predicate AllFields(fields: map<Field, Stored>) { forall i :: 0 <= i < |FIELDS| ==> FIELDS[i] in fields }

  /** `complete_times`. */
  function Complete(s: Saved): set<nat> { set t | t in s && AllFields(s[t]) }

  /** a and a + 1 are the two latest of these times. */
  predicate LatestPair(times: set<nat>, a: nat) { a in times && a + 1 in times && forall t :: t in times ==> t <= a + 1 }

  /** The field in a slot of the states at times a and a + 1. */
  function Slot(s: Saved, a: nat, k: nat, n: nat): (r: Result<seq<Cell>>)
    requires k < SLOTS
    ensures r.Ok? ==> |r.value| == n
  {
    if a + k / 7 in s && FIELDS[k % 7] in s[a + k / 7] then Load(s[a + k / 7][FIELDS[k % 7]], n) else Err
  }

  predicate SlotsLoad(s: Saved, a: nat, n: nat) { forall k :: 0 <= k < SLOTS ==> Slot(s, a, k, n).Ok? }

  /** Times complete in every processor. */
  function Common(ps: seq<Processor>): set<nat>
    requires ps != []
  {
    set t | t in Complete(ps[0].saved) && forall i :: 0 <= i < |ps| ==> t in Complete(ps[i].saved)
  }

  // ---------- the owner of a cell ----------

  predicate Distinct(xs: seq<nat>) { forall i, j :: 0 <= i < j < |xs| ==> xs[i] != xs[j] }

  function IndexOf(xs: seq<nat>, c: nat): (n: nat)
    ensures n <= |xs| && (c in xs ==> n < |xs| && xs[n] == c)
  {
    if xs == [] || xs[0] == c then 0 else 1 + IndexOf(xs[1..], c)
  }

  /** How many processors claim the cell. */
  function Owners(ps: seq<Processor>, c: nat): nat {
    if ps == [] then 0 else Owners(ps[..|ps| - 1], c) + if c in ps[|ps| - 1].addressing then 1 else 0
  }

  /** Addresses are mesh cells and repeat within no processor, and every mesh cell has exactly one owner. */
  ghost predicate Partition(ps: seq<Processor>, cells: nat) {
    && (forall i :: 0 <= i < |ps| ==> Addresses(ps[i].addressing, cells))
    && (forall c :: 0 <= c < cells ==> Owners(ps, c) == 1)
  }

  predicate Addresses(xs: seq<nat>, cells: nat) { Distinct(xs) && forall i :: 0 <= i < |xs| ==> xs[i] < cells }

  /** What a processor stores for a cell it owns. */
  function Local(p: Processor, a: nat, k: nat, c: nat): Cell
    requires k < SLOTS && c in p.addressing
  {
    var part := Slot(p.saved, a, k, |p.addressing|);
    if part.Ok? then part.value[IndexOf(p.addressing, c)] else []
  }

  /** The value of a cell: whatever its owner stores for it. */
  function Gather(ps: seq<Processor>, a: nat, k: nat, c: nat): Cell
    requires k < SLOTS
  {
    if ps == [] then []
    else if c in ps[|ps| - 1].addressing then Local(ps[|ps| - 1], a, k, c)
    else Gather(ps[..|ps| - 1], a, k, c)
  }

  ghost predicate ProcessorsLoad(ps: seq<Processor>, a: nat) {
    forall i :: 0 <= i < |ps| ==> SlotsLoad(ps[i].saved, a, |ps[i].addressing|)
  }

  /** A stored reconstruction of the latest state, when there is one, agrees cell by cell. */
  ghost predicate AgreesWithRoot(root: Saved, ps: seq<Processor>, cells: nat, a: nat) {
    a + 1 in Complete(root) ==> forall k :: 7 <= k < SLOTS ==>
      && Slot(root, a, k, cells).Ok?
      && forall c :: 0 <= c < cells ==> Slot(root, a, k, cells).value[c] == Gather(ps, a, k, c)
  }

  ghost predicate AcceptsProcessors(root: Saved, ps: seq<Processor>, cells: nat, a: nat) {
    ps != [] && LatestPair(Common(ps), a) && ProcessorsLoad(ps, a) && Partition(ps, cells) && AgreesWithRoot(root, ps, cells, a)
  }

  // ---------- scattering ----------

  lemma {:induction false} IndexOfDistinct(xs: seq<nat>, i: nat)
    requires Distinct(xs) && i < |xs|
    ensures IndexOf(xs, xs[i]) == i
  {
    if i > 0 {
      assert Distinct(xs[1..]) by { assert forall j :: 0 <= j < |xs[1..]| ==> xs[1..][j] == xs[j + 1]; }
      assert xs[0] != xs[i];
      IndexOfDistinct(xs[1..], i - 1);
    }
  }

  /** values[k][addressing] = part. */
  method Scatter(values: array2<Cell>, k: nat, addressing: seq<nat>, part: seq<Cell>)
    requires k < values.Length0 && Addresses(addressing, values.Length1) && |part| == |addressing|
    modifies values
    ensures forall r, c :: 0 <= r < values.Length0 && 0 <= c < values.Length1 ==>
              values[r, c] == if r == k && c in addressing then part[IndexOf(addressing, c)] else old(values[r, c])
  {
    for i := 0 to |addressing|
      invariant forall r, c :: 0 <= r < values.Length0 && 0 <= c < values.Length1 ==>
                  values[r, c] == if r == k && c in addressing[..i] then part[IndexOf(addressing, c)] else old(values[r, c])
    {
      IndexOfDistinct(addressing, i);
      assert addressing[..i + 1] == addressing[..i] + [addressing[i]];
      values[k, addressing[i]] := part[i];
    }
    assert addressing[..|addressing|] == addressing;
  }

  lemma OwnersAppend(ps: seq<Processor>, n: nat, c: nat)
    requires n < |ps|
    ensures Owners(ps[..n + 1], c) == Owners(ps[..n], c) + if c in ps[n].addressing then 1 else 0
  {
    assert ps[..n + 1][..n] == ps[..n];
  }

  lemma GatherAppend(ps: seq<Processor>, n: nat, a: nat, k: nat, c: nat)
    requires n < |ps| && k < SLOTS
    ensures Gather(ps[..n + 1], a, k, c) == if c in ps[n].addressing then Local(ps[n], a, k, c) else Gather(ps[..n], a, k, c)
  {
    assert ps[..n + 1][..n] == ps[..n];
    hide Local;
  }

  lemma {:induction false} OwnersGrow(ps: seq<Processor>, n: nat, c: nat)
    requires n <= |ps|
    ensures Owners(ps[..n], c) <= Owners(ps, c)
    decreases |ps| - n
  {
    if n < |ps| {
      OwnersAppend(ps, n, c);
      OwnersGrow(ps, n + 1, c);
    } else {
      assert ps[..n] == ps;
    }
  }

  /** The covered mask after n processors: set exactly where one of them owns the cell. */
  ghost predicate Mask(covered: seq<bool>, ps: seq<Processor>) {
    forall c :: 0 <= c < |covered| ==> Owners(ps, c) == if covered[c] then 1 else 0
  }

  /** One processor: every slot is scattered through the addressing, then the cells are marked. */
  method AddProcessor(values: array2<Cell>, covered: array<bool>, p: Processor, a: nat) returns (ok: bool)
    requires values.Length0 == SLOTS && values.Length1 == covered.Length && Addresses(p.addressing, covered.Length)
    modifies values, covered
    ensures ok <==> SlotsLoad(p.saved, a, |p.addressing|)
    ensures ok ==> forall c :: 0 <= c < covered.Length ==> covered[c] == (old(covered[c]) || c in p.addressing)
    ensures ok ==> forall k, c :: 0 <= k < SLOTS && 0 <= c < covered.Length ==>
              values[k, c] == if c in p.addressing then Local(p, a, k, c) else old(values[k, c])
  {
    hide Slot, IndexOf;
    for k := 0 to SLOTS
      invariant forall j :: 0 <= j < k ==> Slot(p.saved, a, j, |p.addressing|).Ok?
      invariant forall r, c :: 0 <= r < SLOTS && 0 <= c < covered.Length ==>
                  values[r, c] == if r < k && c in p.addressing then Local(p, a, r, c) else old(values[r, c])
      modifies values
    {
      var part := Slot(p.saved, a, k, |p.addressing|);
      if part.Err? {
        return false;
      }
      Scatter(values, k, p.addressing, part.value);
    }
    for i := 0 to |p.addressing|
      invariant forall c :: 0 <= c < covered.Length ==> covered[c] == (old(covered[c]) || c in p.addressing[..i])
      modifies covered
    {
      assert p.addressing[..i + 1] == p.addressing[..i] + [p.addressing[i]];
      covered[p.addressing[i]] := true;
    }
    assert p.addressing[..|p.addressing|] == p.addressing;
    ok := true;
  }

  /** A cell already marked and addressed again has two owners. */
  lemma Overlaps(ps: seq<Processor>, n: nat, covered: seq<bool>, c: nat)
    requires n < |ps| && c < |covered| && Mask(covered, ps[..n]) && covered[c] && c in ps[n].addressing
    ensures Owners(ps, c) > 1
  {
    OwnersAppend(ps, n, c);
    OwnersGrow(ps, n + 1, c);
    hide Owners;
  }

  lemma MaskAppends(ps: seq<Processor>, n: nat, before: seq<bool>, after: seq<bool>)
    requires n < |ps| && Mask(before, ps[..n]) && |before| == |after|
    requires forall c :: 0 <= c < |after| ==> after[c] == (before[c] || c in ps[n].addressing)
    requires forall c :: 0 <= c < |before| && before[c] ==> c !in ps[n].addressing
    ensures Mask(after, ps[..n + 1])
  {
    hide Owners;
    forall c | 0 <= c < |after| ensures Owners(ps[..n + 1], c) == if after[c] then 1 else 0 {
      OwnersAppend(ps, n, c);
    }
  }

  /** Fills both states from one processor after another; stops at an overlap, an address outside the mesh, a field that does not
      load, or, at the end, a cell nobody wrote. */
  method Reassemble(ps: seq<Processor>, cells: nat, a: nat) returns (ok: bool, values: array2<Cell>)
    ensures fresh(values)
    ensures ok <==> ProcessorsLoad(ps, a) && Partition(ps, cells)
    ensures ok ==> values.Length0 == SLOTS && values.Length1 == cells
    ensures ok ==> forall k, c :: 0 <= k < SLOTS && 0 <= c < cells ==> values[k, c] == Gather(ps, a, k, c)
  {
    values := new Cell[SLOTS, cells];
    var covered := new bool[cells](_ => false);
    hide Gather, Local, Owners, Addresses, SlotsLoad, Mask;
    StartMask(covered[..]);
    assert ps[..0] == [];
    for n := 0 to |ps|
      invariant forall i :: 0 <= i < n ==> Addresses(ps[i].addressing, cells) && SlotsLoad(ps[i].saved, a, |ps[i].addressing|)
      invariant Mask(covered[..], ps[..n])
      invariant forall k, c :: 0 <= k < SLOTS && 0 <= c < cells && covered[c] ==> values[k, c] == Gather(ps[..n], a, k, c)
      modifies values, covered
    {
      var p := ps[n];
      if !Addresses(p.addressing, cells) {
        return false, values;
      }
      AddressesAreCells(p.addressing, cells);
      if exists i :: 0 <= i < |p.addressing| && covered[p.addressing[i]] {
        ghost var i :| 0 <= i < |p.addressing| && covered[p.addressing[i]];
        Overlaps(ps, n, covered[..], p.addressing[i]);
        return false, values;
      }
      ghost var mask := covered[..];
      var added := AddProcessor(values, covered, p, a);
      if !added {
        return false, values;
      }
      MaskAppends(ps, n, mask, covered[..]);
      forall k, c | 0 <= k < SLOTS && 0 <= c < cells && covered[c] ensures values[k, c] == Gather(ps[..n + 1], a, k, c) {
        GatherAppend(ps, n, a, k, c);
      }
    }
    assert ps[..|ps|] == ps;
    MaskMeans(covered[..], ps);
    if exists c :: 0 <= c < cells && !covered[c] {
      return false, values;
    }
    ok := true;
  }

  lemma StartMask(covered: seq<bool>)
    requires forall c :: 0 <= c < |covered| ==> !covered[c]
    ensures Mask(covered, [])
  {
  }

  lemma MaskMeans(covered: seq<bool>, ps: seq<Processor>)
    requires Mask(covered, ps)
    ensures forall c :: 0 <= c < |covered| ==> Owners(ps, c) == if covered[c] then 1 else 0
  {
  }

  lemma AddressesAreCells(xs: seq<nat>, cells: nat)
    requires Addresses(xs, cells)
    ensures forall i :: 0 <= i < |xs| ==> xs[i] < cells
  {
  }

  // ---------- the whole operation ----------

  /** The root holds two consecutive latest states of its own. */
  ghost predicate Reconstructed(root: Saved) { exists a :: LatestPair(Complete(root), a) }

  ghost predicate Accepts(root: Saved, ps: seq<Processor>, cells: nat, a: nat) {
    if Reconstructed(root) then LatestPair(Complete(root), a) && SlotsLoad(root, a, cells)
    else AcceptsProcessors(root, ps, cells, a)
  }

  method LoadRoot(root: Saved, cells: nat, a: nat) returns (ok: bool, values: array2<Cell>)
    ensures fresh(values)
    ensures ok <==> SlotsLoad(root, a, cells)
    ensures ok ==> values.Length0 == SLOTS && values.Length1 == cells
    ensures ok ==> forall k, c :: 0 <= k < SLOTS && 0 <= c < cells ==>
              Slot(root, a, k, cells).Ok? && values[k, c] == Slot(root, a, k, cells).value[c]
  {
    values := new Cell[SLOTS, cells];
    hide Slot;
    for k := 0 to SLOTS
      invariant forall j :: 0 <= j < k ==> Slot(root, a, j, cells).Ok?
      invariant forall j, c :: 0 <= j < k && 0 <= c < cells ==> values[j, c] == Slot(root, a, j, cells).value[c]
      modifies values
    {
      var field := Slot(root, a, k, cells);
      if field.Err? {
        return false, values;
      }
      forall c | 0 <= c < cells {
        values[k, c] := field.value[c];
      }
    }
    ok := true;
  }

  /** Whether a stored latest state equals the reassembled one. */
  method MatchesRoot(root: Saved, ps: seq<Processor>, cells: nat, a: nat, values: array2<Cell>) returns (ok: bool)
    requires values.Length0 == SLOTS && values.Length1 == cells && a + 1 in Complete(root)
    requires forall k, c :: 0 <= k < SLOTS && 0 <= c < cells ==> values[k, c] == Gather(ps, a, k, c)
    ensures ok <==> AgreesWithRoot(root, ps, cells, a)
  {
    hide Slot, Gather, Complete;
    for k := 7 to SLOTS
      invariant forall j :: 7 <= j < k ==> Slot(root, a, j, cells).Ok?
      invariant forall j, c :: 7 <= j < k && 0 <= c < cells ==> Slot(root, a, j, cells).value[c] == Gather(ps, a, j, c)
    {
      var field := Slot(root, a, k, cells);
      if field.Err? || exists c :: 0 <= c < cells && field.value[c] != values[k, c] {
        return false;
      }
    }
    ok := true;
  }

  /** `load_consecutive_states`. */
  method LoadConsecutiveStates(root: Saved, ps: seq<Processor>, cells: nat) returns (ok: bool, a: nat, values: array2<Cell>)
    ensures fresh(values)
    ensures ok <==> exists t :: Accepts(root, ps, cells, t)
    ensures ok ==> Accepts(root, ps, cells, a) && values.Length0 == SLOTS && values.Length1 == cells
    ensures ok && Reconstructed(root) ==> forall k, c :: 0 <= k < SLOTS && 0 <= c < cells ==>
              Slot(root, a, k, cells).Ok? && values[k, c] == Slot(root, a, k, cells).value[c]
    ensures ok && !Reconstructed(root) ==> forall k, c :: 0 <= k < SLOTS && 0 <= c < cells ==> values[k, c] == Gather(ps, a, k, c)
  {
    ok, a, values := false, 0, new Cell[0, 0];
    hide Complete, Slot, Gather, Partition, ProcessorsLoad, Common, AgreesWithRoot, SlotsLoad;
    var times := Complete(root);
    if t :| t in times && LatestPair(times, t) {
      a := t;
      UniquePair(times, t);
      ok, values := LoadRoot(root, cells, a);
      assert ok <==> Accepts(root, ps, cells, a);
      return;
    }
    assert !Reconstructed(root);
    if ps == [] {
      return;
    }
    var common := Common(ps);
    if t :| t in common && LatestPair(common, t) {
      a := t;
      UniquePair(common, t);
      ok, values := Reassemble(ps, cells, a);
      if ok {
        if a + 1 in times {
          ok := MatchesRoot(root, ps, cells, a, values);
        } else {
          NothingToMatch(root, ps, cells, a);
        }
      }
      assert ok <==> Accepts(root, ps, cells, a);
    }
  }

  lemma NothingToMatch(root: Saved, ps: seq<Processor>, cells: nat, a: nat)
    requires a + 1 !in Complete(root)
    ensures AgreesWithRoot(root, ps, cells, a)
  {
  }

  lemma UniquePair(times: set<nat>, a: nat)
    requires LatestPair(times, a)
    ensures forall t :: LatestPair(times, t) ==> t == a
  {
  }

  // ---------- what reassembly recovers ----------

  lemma {:induction false} OwnerIsLast(ps: seq<Processor>, i: nat, a: nat, k: nat, c: nat)
    requires i < |ps| && k < SLOTS && c in ps[i].addressing && Owners(ps, c) == 1
    ensures Gather(ps, a, k, c) == Local(ps[i], a, k, c)
    decreases |ps|
  {
    var front := ps[..|ps| - 1];
    if i < |ps| - 1 {
      SomeOwner(front, i, c);
      hide Local;
      OwnerIsLast(front, i, a, k, c);
    }
  }

  lemma {:induction false} SomeOwner(ps: seq<Processor>, i: nat, c: nat)
    requires i < |ps| && c in ps[i].addressing
    ensures Owners(ps, c) >= 1
  {
    if i < |ps| - 1 { SomeOwner(ps[..|ps| - 1], i, c); }
  }

  lemma {:induction false} AnOwner(ps: seq<Processor>, c: nat) returns (i: nat)
    requires Owners(ps, c) >= 1
    ensures i < |ps| && c in ps[i].addressing
  {
    if c in ps[|ps| - 1].addressing {
      i := |ps| - 1;
    } else {
      i := AnOwner(ps[..|ps| - 1], c);
    }
  }

  /** A processor's stored fields are the restriction of global fields along its addressing. */
  ghost predicate Restricts(p: Processor, a: nat, global: (nat, nat) -> Cell) {
    forall k, i :: 0 <= k < SLOTS && 0 <= i < |p.addressing| ==>
      && Slot(p.saved, a, k, |p.addressing|).Ok?
      && Slot(p.saved, a, k, |p.addressing|).value[i] == global(k, p.addressing[i])
  }

  /** Reassembly undoes decomposition: for processors holding restrictions of global fields, an accepted run returns those fields. */
  lemma ReassemblyUndoesDecomposition(ps: seq<Processor>, cells: nat, a: nat, global: (nat, nat) -> Cell, k: nat, c: nat)
    requires Partition(ps, cells) && k < SLOTS && c < cells
    requires forall i :: 0 <= i < |ps| ==> Restricts(ps[i], a, global)
    ensures Gather(ps, a, k, c) == global(k, c)
  {
    assert Owners(ps, c) == 1;
    var i := AnOwner(ps, c);
    OwnerIsLast(ps, i, a, k, c);
    var j := IndexOf(ps[i].addressing, c);
    assert Restricts(ps[i], a, global);
    assert Slot(ps[i].saved, a, k, |ps[i].addressing|).value[j] == global(k, ps[i].addressing[j]);
    hide Slot, Gather, Owners, Partition, Restricts;
  }

  // ---------- the order of the processors ----------

  lemma {:induction false} OwnersInsert(xs: seq<Processor>, p: Processor, ys: seq<Processor>, c: nat)
    ensures Owners(xs + [p] + ys, c) == Owners(xs + ys, c) + if c in p.addressing then 1 else 0
  {
    var all := xs + [p] + ys;
    if ys == [] {
      assert all[..|all| - 1] == xs && xs + ys == xs;
    } else {
      assert all[..|all| - 1] == xs + [p] + ys[..|ys| - 1];
      assert (xs + ys)[..|xs + ys| - 1] == xs + ys[..|ys| - 1];
      OwnersInsert(xs, p, ys[..|ys| - 1], c);
    }
  }

  /** How many processors own a cell does not depend on their order. */
  lemma {:induction false} OwnersPermute(xs: seq<Processor>, ys: seq<Processor>, c: nat)
    requires multiset(xs) == multiset(ys)
    ensures Owners(xs, c) == Owners(ys, c)
  {
    if xs == [] {
      assert |multiset(ys)| == |ys| && |multiset(xs)| == |xs|;
    } else {
      var p, front := xs[|xs| - 1], xs[..|xs| - 1];
      assert p in multiset(ys);
      var i :| 0 <= i < |ys| && ys[i] == p;
      var rest := ys[..i] + ys[i + 1..];
      hide *;
      CutOne(ys, i);
      CutOne(xs, |xs| - 1);
      assert front + xs[|xs|..] == front;
      CancelOne(multiset(front), multiset(rest), p);
      Rejoin(ys, i);
      OwnersInsert(ys[..i], p, ys[i + 1..], c);
      LastOwner(xs, c);
      OwnersPermute(front, rest, c);
    }
  }

  lemma CancelOne(xs: multiset<Processor>, ys: multiset<Processor>, p: Processor)
    requires xs + multiset{p} == ys + multiset{p}
    ensures xs == ys
  {
    forall x ensures xs[x] == ys[x] {
      assert (xs + multiset{p})[x] == (ys + multiset{p})[x];
    }
  }

  lemma Rejoin(ys: seq<Processor>, i: nat)
    requires i < |ys|
    ensures ys == ys[..i] + [ys[i]] + ys[i + 1..]
  {
  }

  lemma LastOwner(xs: seq<Processor>, c: nat)
    requires xs != []
    ensures Owners(xs, c) == Owners(xs[..|xs| - 1], c) + if c in xs[|xs| - 1].addressing then 1 else 0
  {
  }

  lemma CutOne(ys: seq<Processor>, i: nat)
    requires i < |ys|
    ensures multiset(ys) == multiset(ys[..i] + ys[i + 1..]) + multiset{ys[i]}
  {
    assert ys == ys[..i] + [ys[i]] + ys[i + 1..];
  }

  lemma SameMembers(xs: seq<Processor>, ys: seq<Processor>, i: nat) returns (j: nat)
    requires multiset(xs) == multiset(ys) && i < |xs|
    ensures j < |ys| && ys[j] == xs[i]
  {
    assert xs[i] in multiset(ys);
    j :| 0 <= j < |ys| && ys[j] == xs[i];
  }

  /** Any other order of the processors is accepted alike and yields the same fields. */
  lemma OrderIrrelevant(root: Saved, xs: seq<Processor>, ys: seq<Processor>, cells: nat, a: nat)
    requires multiset(xs) == multiset(ys) && AcceptsProcessors(root, xs, cells, a)
    ensures forall k, c :: 0 <= k < SLOTS && 0 <= c < cells ==> Gather(xs, a, k, c) == Gather(ys, a, k, c)
    ensures AcceptsProcessors(root, ys, cells, a)
  {
    hide Gather, Owners, Slot, Complete, Addresses, SlotsLoad, Local;
    forall j | 0 <= j < |ys| ensures Addresses(ys[j].addressing, cells) && SlotsLoad(ys[j].saved, a, |ys[j].addressing|) {
      var i := SameMembers(ys, xs, j);
    }
    forall c | 0 <= c < cells ensures Owners(ys, c) == 1 {
      OwnersPermute(xs, ys, c);
    }
    assert |multiset(xs)| == |xs| && |multiset(ys)| == |ys|;
    CommonPermutes(xs, ys);
    forall k, c | 0 <= k < SLOTS && 0 <= c < cells ensures Gather(xs, a, k, c) == Gather(ys, a, k, c) {
      assert Owners(xs, c) == 1;
      var i := AnOwner(xs, c);
      var j := SameMembers(xs, ys, i);
      OwnerIsLast(xs, i, a, k, c);
      OwnerIsLast(ys, j, a, k, c);
    }
  }

  lemma CommonPermutes(xs: seq<Processor>, ys: seq<Processor>)
    requires xs != [] && ys != [] && multiset(xs) == multiset(ys)
    ensures Common(xs) == Common(ys)
  {
    CommonWithin(xs, ys);
    CommonWithin(ys, xs);
  }

  lemma CommonWithin(xs: seq<Processor>, ys: seq<Processor>)
    requires xs != [] && ys != [] && multiset(xs) == multiset(ys)
    ensures Common(xs) <= Common(ys)
  {
    hide Complete;
    forall t | t in Common(xs) ensures t in Common(ys) {
      forall j | 0 <= j < |ys| ensures t in Complete(ys[j].saved) {
        var i := SameMembers(ys, xs, j);
      }
    }
  }

  /** A cell claimed twice, or by nobody, or an address outside the mesh, is never accepted. */
  lemma FaultsAreRefused(root: Saved, ps: seq<Processor>, cells: nat, a: nat, i: nat, n: nat, c: nat)
    requires (c < cells && Owners(ps, c) != 1) || (i < |ps| && n < |ps[i].addressing| && ps[i].addressing[n] >= cells)
    ensures !AcceptsProcessors(root, ps, cells, a)
  {
    hide Owners, Common, ProcessorsLoad, AgreesWithRoot, LatestPair;
    assert Partition(ps, cells) && i < |ps| ==> Addresses(ps[i].addressing, cells);
  }

  // ---------- times and slots in full ----------

  ghost predicate HasAllSeven(files: map<Field, Stored>) {
    Rho in files && U in files && H in files && P in files && K in files && Omega in files && RDeltaT in files
  }

  /** Which times count: those with all seven field files, in the root or in every processor alike; and which two are chosen: the
      latest and the one before it, if it is the latest but one. */
  lemma TimesInFull(saved: Saved, ps: seq<Processor>, t: nat, times: set<nat>, a: nat)
    requires ps != []
    ensures t in Complete(saved) <==> t in saved && HasAllSeven(saved[t])
    ensures t in Common(ps) <==> forall p :: p in ps ==> t in p.saved && HasAllSeven(p.saved[t])
    ensures LatestPair(times, a) <==> {a, a + 1} <= times && forall u :: u in times ==> u == a + 1 || u <= a
  {
    SevenFields();
    assert ps[0] in ps;
    hide AllFields, HasAllSeven;
  }

  lemma SevenFields()
    ensures forall files :: AllFields(files) <==> HasAllSeven(files)
  {
    forall files ensures AllFields(files) <==> HasAllSeven(files) {
      assert FIELDS[0] == Rho && FIELDS[1] == U && FIELDS[2] == H && FIELDS[3] == P && FIELDS[4] == K && FIELDS[5] == Omega && FIELDS[6] == RDeltaT;
      if AllFields(files) {
        assert FIELDS[0] in files && FIELDS[1] in files && FIELDS[2] in files && FIELDS[3] in files;
        assert FIELDS[4] in files && FIELDS[5] in files && FIELDS[6] in files;
      }
    }
  }

  function Place(f: Field): (k: nat)
    ensures k < 7
  {
    match f case Rho => 0 case U => 1 case H => 2 case P => 3 case K => 4 case Omega => 5 case RDeltaT => 6
  }

  /** What a slot holds: that field of the earlier or the later state, a uniform file spread over all cells. */
  lemma SlotIs(s: Saved, a: nat, n: nat, f: Field, later: bool)
    ensures var t := if later then a + 1 else a;
            var r := Slot(s, a, Place(f) + (if later then 7 else 0), n);
            if t !in s || f !in s[t] then r == Err
            else match s[t][f]
                 case Uniform(v) => r.Ok? && |r.value| == n && forall c :: 0 <= c < n ==> r.value[c] == v
                 case Listed(vs) => if |vs| == n then r == Ok(vs) else r == Err
                 case Malformed => r == Err
  {
    var k := Place(f) + (if later then 7 else 0);
    assert k % 7 == Place(f) && k / 7 == if later then 1 else 0;
    assert FIELDS[Place(f)] == f;
  }
}
