/** The durable OpenCFD 2606 cutover tuple: its validator, its bootstrap, and the workflow that rewrites it. */
module CutoverState {
  import opened Characters
  import opened Wrappers
  import opened EnvFile

  datatype Result<+T> = Ok(value: T) | Err(error: Refusal)

  datatype Refusal =
    | NotARegularFile | MissingField | DuplicateField
    | NotBinary | BadSweeper | BadAttestation | BadContract | BadRevision | BadTree
    | ReceiptMissingOrInvalid | ReceiptWithoutPending | RetainedReceiptInvalid
    | RecoveryFieldsWhileIdle | BindingWhileIdle | ContractWhilePristine | NoContractWhenTerminal
    | PendingAndComplete | NoSweeperState | NoBinding | AttestedExpectsReceipt | AttestedWithoutContract
    | ContractBeforeAttestation | HalfCurrentSource | BadCurrentSource | OtherSource | PendingForbidden | NotCertifiable

  datatype Tuple = Tuple(pending: string, complete: string, sweeper: string, attestation: string,
                         receiptExpected: string, contract: string, revision: string, tree: string)

  const PENDING := "OPENCFD2606_CUTOVER_PENDING"
  const COMPLETE := "OPENCFD2606_CUTOVER_COMPLETE"
  const SWEEPER := "OPENCFD2606_CUTOVER_SWEEPER_WAS_RUNNING"
  const ATTESTATION := "OPENCFD2606_CANARY_ATTESTATION_ID"
  const EXPECTED := "OPENCFD2606_CANARY_RECEIPT_EXPECTED"
  const CONTRACT := "OPENCFD2606_CERTIFIED_EVIDENCE_CONTRACT_SHA256"
  const REVISION := "OPENCFD2606_CUTOVER_SOURCE_REVISION"
  const TREE := "OPENCFD2606_CUTOVER_SOURCE_TREE_SHA256"
  const FIELDS: seq<string> := [PENDING, COMPLETE, SWEEPER, ATTESTATION, EXPECTED, CONTRACT, REVISION, TREE]

  function FieldUpdates(t: Tuple): Updates {
    [(PENDING, t.pending), (COMPLETE, t.complete), (SWEEPER, t.sweeper), (ATTESTATION, t.attestation),
     (EXPECTED, t.receiptExpected), (CONTRACT, t.contract), (REVISION, t.revision), (TREE, t.tree)]
  }

  const PRISTINE := Tuple("0", "0", "", "", "0", "", "", "")

  lemma FieldLengths()
    ensures |PENDING| == 27 && |COMPLETE| == 28 && |SWEEPER| == 39 && |ATTESTATION| == 33
    ensures |EXPECTED| == 35 && |CONTRACT| == 46 && |REVISION| == 35 && |TREE| == 38 && EXPECTED[13] != REVISION[13]
  {
  }

  lemma PlainNames()
    ensures '=' !in PENDING && '=' !in COMPLETE && '=' !in SWEEPER && '=' !in ATTESTATION
  {
  }

  lemma MorePlainNames()
    ensures '=' !in EXPECTED && '=' !in CONTRACT && '=' !in REVISION && '=' !in TREE
  {
  }

  lemma FieldsDiffer()
    ensures forall i, j :: 0 <= i < j < |FIELDS| ==> FIELDS[i] != FIELDS[j]
    ensures forall i :: 0 <= i < |FIELDS| ==> FIELDS[i] != "" && '=' !in FIELDS[i]
  {
    FieldLengths();
    PlainNames();
    MorePlainNames();
    hide PENDING, COMPLETE, SWEEPER, ATTESTATION, EXPECTED, CONTRACT, REVISION, TREE;
  }

  // ---------- reading ----------

  datatype EnvFileOnDisk = NotRegular | Regular(lines: Lines)

  ghost predicate OnceEach(lines: Lines) { OnceEachOf(lines, FIELDS) }

  ghost predicate OnceEachOf(lines: Lines, fields: seq<string>) {
    forall i :: 0 <= i < |fields| ==> |Values(lines, fields[i])| == 1
  }

  ghost predicate SomeMissing(lines: Lines, fields: seq<string>) {
    exists i :: 0 <= i < |fields| && Values(lines, fields[i]) == []
  }

  ghost predicate AllMissing(lines: Lines, fields: seq<string>) {
    forall i :: 0 <= i < |fields| ==> Values(lines, fields[i]) == []
  }

  ghost function ReadTuple(lines: Lines): Tuple
    requires OnceEach(lines)
  {
    assert forall i :: 0 <= i < |FIELDS| ==> |Values(lines, FIELDS[i])| == 1;
    Tuple(Values(lines, FIELDS[0])[0], Values(lines, FIELDS[1])[0], Values(lines, FIELDS[2])[0], Values(lines, FIELDS[3])[0],
          Values(lines, FIELDS[4])[0], Values(lines, FIELDS[5])[0], Values(lines, FIELDS[6])[0], Values(lines, FIELDS[7])[0])
  }

  lemma ValuesGrow(lines: Lines, n: nat, key: string)
    requires n < |lines|
    ensures Values(lines[..n + 1], key)
            == Values(lines[..n], key) + if Split(lines[n]).Some? && Split(lines[n]).value.0 == key then [Split(lines[n]).value.1] else []
  {
    assert lines[..n + 1][..n] == lines[..n];
    hide Split;
  }

  lemma NoValues(lines: Lines, key: string)
    ensures Values(lines[..0], key) == [] && lines[..|lines|] == lines
  {
  }

  /** The values of each wanted key, in one pass over the file. */
  method Occurrences(lines: Lines, fields: seq<string>) returns (occurrences: map<string, seq<string>>)
    ensures forall i :: 0 <= i < |fields| ==> fields[i] in occurrences && occurrences[fields[i]] == Values(lines, fields[i])
  {
    hide Values, Split;
    occurrences := map i | 0 <= i < |fields| :: fields[i] := [];
    forall i | 0 <= i < |fields| ensures Values(lines[..0], fields[i]) == [] {
      NoValues(lines, fields[i]);
    }
    for n := 0 to |lines|
      invariant forall i :: 0 <= i < |fields| ==> fields[i] in occurrences && occurrences[fields[i]] == Values(lines[..n], fields[i])
    {
      forall i | 0 <= i < |fields| {
        ValuesGrow(lines, n, fields[i]);
      }
      var split := Split(lines[n]);
      if split.Some? {
        var (key, value) := split.value;
        if key in occurrences {
          occurrences := occurrences[key := occurrences[key] + [value]];
        }
      }
    }
    assert lines[..|lines|] == lines;
  }

  /** Collect the value of each wanted key. */
  method CollectFields(lines: Lines, fields: seq<string>) returns (r: Result<seq<string>>)
    ensures r.Ok? <==> OnceEachOf(lines, fields)
    ensures r.Ok? ==> |r.value| == |fields| && forall i :: 0 <= i < |fields| ==> [r.value[i]] == Values(lines, fields[i])
    ensures r.Err? ==> r.error == if SomeMissing(lines, fields) then MissingField else DuplicateField
  {
    hide Values;
    var occurrences := Occurrences(lines, fields);
    var duplicate := false;
    var values := [];
    for i := 0 to |fields|
      invariant |values| == i
      invariant forall j :: 0 <= j < i ==> Values(lines, fields[j]) != [] && values[j] == Values(lines, fields[j])[0]
      invariant duplicate <==> exists j :: 0 <= j < i && |Values(lines, fields[j])| != 1
    {
      if occurrences[fields[i]] == [] {
        return Err(MissingField);
      }
      duplicate := duplicate || |occurrences[fields[i]]| != 1;
      values := values + [occurrences[fields[i]][0]];
    }
    r := if duplicate then Err(DuplicateField) else Ok(values);
  }

  /** Every field must occur exactly once; the tuple then holds those values. */
  method ParseEnv(file: EnvFileOnDisk) returns (r: Result<Tuple>)
    ensures r.Ok? <==> file.Regular? && OnceEach(file.lines)
    ensures r.Ok? ==> r.value == ReadTuple(file.lines)
    ensures r.Err? ==> r.error == if file.NotRegular? then NotARegularFile
                                  else if SomeMissing(file.lines, FIELDS) then MissingField else DuplicateField
  {
    if file.NotRegular? {
      return Err(NotARegularFile);
    }
    var collected := CollectFields(file.lines, FIELDS);
    if collected.Err? {
      return Err(collected.error);
    }
    var v := collected.value;
    forall i | 0 <= i < |FIELDS| ensures Values(file.lines, FIELDS[i])[0] == v[i] {
      assert [v[i]] == Values(file.lines, FIELDS[i]);
    }
    r := Ok(Tuple(v[0], v[1], v[2], v[3], v[4], v[5], v[6], v[7]));
  }

  lemma {:induction false} LookupField(t: Tuple, i: nat)
    requires i < |FIELDS|
    ensures ProperUpdates(FieldUpdates(t)) && FieldUpdates(t)[i].0 == FIELDS[i]
    ensures Lookup(FieldUpdates(t), FIELDS[i]) == Some(FieldUpdates(t)[i].1)
  {
    FieldsDiffer();
    assert forall j :: 0 <= j < |FIELDS| ==> FieldUpdates(t)[j].0 == FIELDS[j];
    LookupFinds(FieldUpdates(t), i);
  }

  /** Writing a whole tuple and reading it back gives that tuple, whatever the file held before. */
  lemma WrittenTupleReads(lines: Lines, t: Tuple)
    ensures OnceEach(SetVariables(lines, FieldUpdates(t))) && ReadTuple(SetVariables(lines, FieldUpdates(t))) == t
  {
    var after := SetVariables(lines, FieldUpdates(t));
    FieldsDiffer();
    forall i | 0 <= i < |FIELDS| ensures Values(after, FIELDS[i]) == [FieldUpdates(t)[i].1] {
      LookupField(t, i);
      SetVariablesValues(lines, FieldUpdates(t), FIELDS[i]);
    }
    assert Values(after, FIELDS[0]) == [t.pending] && Values(after, FIELDS[1]) == [t.complete] && Values(after, FIELDS[2]) == [t.sweeper];
    assert Values(after, FIELDS[3]) == [t.attestation] && Values(after, FIELDS[4]) == [t.receiptExpected];
    assert Values(after, FIELDS[5]) == [t.contract] && Values(after, FIELDS[6]) == [t.revision] && Values(after, FIELDS[7]) == [t.tree];
  }

  // ---------- bootstrap ----------

  function Rendered(updates: Updates): Lines {
    seq(|updates|, i requires 0 <= i < |updates| => Join(updates[i].0, updates[i].1))
  }

  method AnyField(lines: Lines, fields: seq<string>) returns (any: bool)
    requires "" !in fields
    ensures any <==> !AllMissing(lines, fields)
  {
    var counts: map<string, nat> := map i | 0 <= i < |fields| :: fields[i] := 0;
    for n := 0 to |lines|
      invariant forall i :: 0 <= i < |fields| ==> fields[i] in counts && counts[fields[i]] == |Values(lines[..n], fields[i])|
      invariant forall k :: k in counts ==> k in fields
    {
      assert lines[..n + 1][..n] == lines[..n];
      var key := LineKey(lines[n]);
      if key in counts {
        counts := counts[key := counts[key] + 1];
      }
    }
    assert lines[..|lines|] == lines;
    any := exists i :: 0 <= i < |fields| && counts[fields[i]] != 0;
  }

  /** Install the pristine tuple only when no recovery field occurs at all. */
  method Bootstrap(lines: Lines) returns (after: Lines)
    ensures after == if AllMissing(lines, FIELDS) then lines + Rendered(FieldUpdates(PRISTINE)) else lines
  {
    FieldsDiffer();
    var any := AnyField(lines, FIELDS);
    after := if any then lines else lines + Rendered(FieldUpdates(PRISTINE));
  }

  lemma {:induction false} RenderedValues(updates: Updates, i: nat)
    requires ProperUpdates(updates) && i < |updates|
    ensures Values(Rendered(updates), updates[i].0) == [updates[i].1]
  {
    var front := Rendered(updates)[..|updates| - 1];
    assert front == Rendered(updates[..|updates| - 1]);
    var last := |updates| - 1;
    SplitJoin(updates[last].0, updates[last].1);
    if i == last {
      RenderedMisses(updates[..last], updates[last].0);
    } else {
      RenderedValues(updates[..last], i);
    }
  }

  lemma {:induction false} RenderedMisses(updates: Updates, key: string)
    requires ProperUpdates(updates) && forall i :: 0 <= i < |updates| ==> updates[i].0 != key
    ensures Values(Rendered(updates), key) == []
  {
    if updates != [] {
      var last := |updates| - 1;
      assert Rendered(updates)[..last] == Rendered(updates[..last]);
      SplitJoin(updates[last].0, updates[last].1);
      RenderedMisses(updates[..last], key);
    }
  }

  /** After bootstrapping a file without recovery fields, the tuple reads as pristine. */
  lemma BootstrapReadsPristine(lines: Lines)
    requires AllMissing(lines, FIELDS)
    ensures var after := lines + Rendered(FieldUpdates(PRISTINE)); OnceEach(after) && ReadTuple(after) == PRISTINE
  {
    var u := FieldUpdates(PRISTINE);
    var after := lines + Rendered(u);
    forall i | 0 <= i < |FIELDS| ensures Values(after, FIELDS[i]) == [u[i].1] {
      LookupField(PRISTINE, i);
      RenderedValues(u, i);
      ValuesConcat(lines, Rendered(u), FIELDS[i]);
    }
    assert Values(after, FIELDS[0]) == ["0"] && Values(after, FIELDS[1]) == ["0"] && Values(after, FIELDS[2]) == [""];
    assert Values(after, FIELDS[3]) == [""] && Values(after, FIELDS[4]) == ["0"];
    assert Values(after, FIELDS[5]) == [""] && Values(after, FIELDS[6]) == [""] && Values(after, FIELDS[7]) == [""];
  }

  // ---------- validation ----------

  predicate AnyHex(c: char) { LowerHex(c) || 'A' <= c <= 'F' }
  predicate Sha1(s: string) { Hex(s, 40) }
  predicate Sha256(s: string) { Hex(s, 64) }

  predicate Uuid(s: string) {
    |s| == 36 && forall i :: 0 <= i < 36 ==> if i in {8, 13, 18, 23} then s[i] == '-' else AnyHex(s[i])
  }

  /** The looser shape the workflow demands of an attestation id: 36 hexadecimal digits or dashes. */
  predicate LooseId(s: string) { |s| == 36 && forall i :: 0 <= i < 36 ==> AnyHex(s[i]) || s[i] == '-' }

  predicate Binary(s: string) { s == "0" || s == "1" }

  /** The receipt path: nothing there, something unusable, or a regular file holding a valid receipt. */
  datatype Receipt = NoReceipt | BadReceipt | GoodReceipt

  datatype StateKind =
    | PristineState | Terminal | PendingPristine | PendingUnmarkedReceipt | PendingReceipt
    | PendingAttestedRetainedReceipt | PendingAttested

  datatype Requirement = AnyState | NonPending | PendingCertifiable

  function FieldShape(t: Tuple): Result<()> {
    if !Binary(t.pending) || !Binary(t.complete) || !Binary(t.receiptExpected) then Err(NotBinary)
    else if !(t.sweeper == "" || Binary(t.sweeper)) then Err(BadSweeper)
    else if t.attestation != "" && !Uuid(t.attestation) then Err(BadAttestation)
    else if t.contract != "" && !Sha256(t.contract) then Err(BadContract)
    else if t.revision != "" && !Sha1(t.revision) then Err(BadRevision)
    else if t.tree != "" && !Sha256(t.tree) then Err(BadTree)
    else Ok(())
  }

  function ReceiptShape(t: Tuple, receipt: Receipt): Result<()> {
    if t.receiptExpected == "1" then if receipt != GoodReceipt then Err(ReceiptMissingOrInvalid) else Ok(())
    else if receipt != NoReceipt && t.pending != "1" then Err(ReceiptWithoutPending)
    else if receipt == BadReceipt then Err(RetainedReceiptInvalid)
    else Ok(())
  }

  function Kind(t: Tuple, receipt: Receipt): Result<StateKind> {
    if t.pending == "0" then
      if t.sweeper != "" || t.attestation != "" || t.receiptExpected != "0" then Err(RecoveryFieldsWhileIdle)
      else if t.revision != "" || t.tree != "" then Err(BindingWhileIdle)
      else if t.complete == "0" then if t.contract != "" then Err(ContractWhilePristine) else Ok(PristineState)
      else if !Sha256(t.contract) then Err(NoContractWhenTerminal)
      else Ok(Terminal)
    else if t.complete != "0" then Err(PendingAndComplete)
    else if !Binary(t.sweeper) then Err(NoSweeperState)
    else if !Sha1(t.revision) || !Sha256(t.tree) then Err(NoBinding)
    else if t.attestation != "" then
      if t.receiptExpected != "0" then Err(AttestedExpectsReceipt)
      else if !Sha256(t.contract) then Err(AttestedWithoutContract)
      else Ok(if receipt != NoReceipt then PendingAttestedRetainedReceipt else PendingAttested)
    else if t.contract != "" then Err(ContractBeforeAttestation)
    else if t.receiptExpected == "1" then Ok(PendingReceipt)
    else Ok(if receipt != NoReceipt then PendingUnmarkedReceipt else PendingPristine)
  }

  /** The source this deployment was built from, when the caller supplies it. */
  function SourceCheck(t: Tuple, revision: Option<string>, tree: Option<string>): Result<()> {
    if revision.None? != tree.None? then Err(HalfCurrentSource)
    else if revision.None? then Ok(())
    else if !Sha1(revision.value) || !Sha256(tree.value) then Err(BadCurrentSource)
    else if t.pending == "1" && (t.revision != revision.value || t.tree != tree.value) then Err(OtherSource)
    else Ok(())
  }

  function RequirementCheck(t: Tuple, kind: StateKind, require: Requirement): Result<()> {
    if require == NonPending && t.pending != "0" then Err(PendingForbidden)
    else if require == PendingCertifiable
            && kind !in {PendingReceipt, PendingUnmarkedReceipt, PendingAttested, PendingAttestedRetainedReceipt} then Err(NotCertifiable)
    else Ok(())
  }

  function Validate(t: Tuple, receipt: Receipt, require: Requirement, revision: Option<string>, tree: Option<string>): Result<StateKind> {
    if FieldShape(t).Err? then Err(FieldShape(t).error)
    else if ReceiptShape(t, receipt).Err? then Err(ReceiptShape(t, receipt).error)
    else if Kind(t, receipt).Err? then Err(Kind(t, receipt).error)
    else if SourceCheck(t, revision, tree).Err? then Err(SourceCheck(t, revision, tree).error)
    else if RequirementCheck(t, Kind(t, receipt).value, require).Err? then Err(RequirementCheck(t, Kind(t, receipt).value, require).error)
    else Kind(t, receipt)
  }

  function Label(t: Tuple, receipt: Receipt): Result<StateKind> { Validate(t, receipt, AnyState, None, None) }

  // ---------- the workflow ----------

  /** The durable state: the environment file and the receipt file. */
  datatype Durable = Durable(lines: Lines, receipt: Receipt)

  /** One durable write of the workflow. A crash between two of them leaves the state as the last one made it. */
  datatype Write =
    | Prepare(sweeperRunning: bool, revision: string, tree: string)
    | PublishReceipt
    | MarkReceipt
    | RecordAttestation(id: string, contract: string)
    | RemoveReceipt
    | Finish

  ghost function Current(d: Durable): Tuple
    requires OnceEach(d.lines)
  {
    ReadTuple(d.lines)
  }

  function WriteTuple(d: Durable, t: Tuple): Durable { d.(lines := SetVariables(d.lines, FieldUpdates(t))) }

  /** `set_opencfd_2606_cutover_state`: a nonempty attestation certifies the current contract, a pending tuple without
      one drops any older contract, and only a pending tuple is bound to a deployment source. */
  function NewTuple(t: Tuple, pending: string, sweeper: string, attestation: string, complete: string,
                    contract: string, revision: string, tree: string): Tuple {
    Tuple(pending, complete, sweeper, attestation, "0",
          if attestation != "" then contract else if pending == "1" then "" else t.contract,
          if pending == "1" then revision else "",
          if pending == "1" then tree else "")
  }

  /** The guards the workflow checks before each write. */
  predicate Guard(t: Tuple, receipt: Receipt, w: Write) {
    match w
    case Prepare(_, revision, tree) =>
      && t.attestation == "" && receipt == NoReceipt && t.receiptExpected == "0" && Sha1(revision) && Sha256(tree)
      && (t.pending == "1" ==> revision == t.revision && tree == t.tree)
    case PublishReceipt => t.pending == "1" && t.attestation == "" && receipt == NoReceipt
    case MarkReceipt => t.pending == "1" && t.attestation == "" && receipt == GoodReceipt
    case RecordAttestation(id, contract) =>
      t.pending == "1" && t.attestation == "" && t.receiptExpected == "1" && receipt == GoodReceipt && LooseId(id) && Sha256(contract)
    case RemoveReceipt => t.pending == "1" && t.attestation != ""
    case Finish => t.pending == "1" && t.attestation != "" && receipt == NoReceipt
  }

  ghost predicate Allowed(d: Durable, w: Write) { OnceEach(d.lines) && Guard(Current(d), d.receipt, w) }

  ghost function Written(d: Durable, w: Write): Durable
    requires Allowed(d, w)
  {
    var t := Current(d);
    match w
    case Prepare(running, revision, tree) =>
      WriteTuple(d, NewTuple(t, "1", if t.pending == "1" then t.sweeper else if running then "1" else "0", "", "0", "", revision, tree))
    case PublishReceipt => d.(receipt := GoodReceipt)
    case MarkReceipt => d.(lines := SetVariables(d.lines, [(EXPECTED, "1")]))
    case RecordAttestation(id, contract) =>
      WriteTuple(d, NewTuple(t, "1", t.sweeper, id, "0", contract, t.revision, t.tree))
    case RemoveReceipt => d.(receipt := NoReceipt)
    case Finish => WriteTuple(d, NewTuple(t, "0", "", "", "1", "", "", ""))
  }

  /** The tuple and receipt after a write, without the rest of the file. */
  ghost function After(t: Tuple, receipt: Receipt, w: Write): (Tuple, Receipt) {
    match w
    case Prepare(running, revision, tree) =>
      (NewTuple(t, "1", if t.pending == "1" then t.sweeper else if running then "1" else "0", "", "0", "", revision, tree), receipt)
    case PublishReceipt => (t, GoodReceipt)
    case MarkReceipt => (t.(receiptExpected := "1"), receipt)
    case RecordAttestation(id, contract) => (NewTuple(t, "1", t.sweeper, id, "0", contract, t.revision, t.tree), receipt)
    case RemoveReceipt => (t, NoReceipt)
    case Finish => (NewTuple(t, "0", "", "", "1", "", "", ""), receipt)
  }

  /** Replacing one variable changes that field of the tuple only. */
  lemma MarkedTupleReads(lines: Lines)
    requires OnceEach(lines)
    ensures var after := SetVariables(lines, [(EXPECTED, "1")]);
            OnceEach(after) && ReadTuple(after) == ReadTuple(lines).(receiptExpected := "1")
  {
    var u := [(EXPECTED, "1")];
    var after := SetVariables(lines, u);
    FieldsDiffer();
    assert FIELDS[4] == EXPECTED;
    forall i | 0 <= i < |FIELDS|
      ensures Values(after, FIELDS[i]) == if i == 4 then ["1"] else Values(lines, FIELDS[i])
    {
      SetVariablesValues(lines, u, FIELDS[i]);
      LookupMisses(u, FIELDS[i]);
      assert i != 4 ==> FIELDS[i] != FIELDS[4];
    }
  }

  /** Every durable write changes the tuple and receipt exactly as the workflow intends. */
  lemma WrittenReads(d: Durable, w: Write)
    requires Allowed(d, w)
    ensures OnceEach(Written(d, w).lines)
    ensures (Current(Written(d, w)), Written(d, w).receipt) == After(Current(d), d.receipt, w)
  {
    hide SetVariables, ReadTuple, OnceEach, FieldUpdates;
    match w
    case Prepare(_, _, _) => WrittenTupleReads(d.lines, After(Current(d), d.receipt, w).0);
    case MarkReceipt => MarkedTupleReads(d.lines);
    case RecordAttestation(_, _) => WrittenTupleReads(d.lines, After(Current(d), d.receipt, w).0);
    case Finish => WrittenTupleReads(d.lines, After(Current(d), d.receipt, w).0);
    case _ =>
  }

  // ---------- runs ----------

  /** The durable state after a sequence of writes, if each was allowed when it was made. */
  ghost function RunWrites(d: Durable, writes: seq<Write>): Option<Durable> {
    if writes == [] then Some(d)
    else
      match RunWrites(d, writes[..|writes| - 1])
      case None => None
      case Some(before) => if Allowed(before, writes[|writes| - 1]) then Some(Written(before, writes[|writes| - 1])) else None
  }

  /** Every attestation id returned by the control plane is a canonical UUID. */
  predicate CanonicalIds(writes: seq<Write>) {
    forall i :: 0 <= i < |writes| && writes[i].RecordAttestation? ==> Uuid(writes[i].id)
  }

  /** The label that says which write was the last one. */
  function LabelAfter(w: Write): StateKind {
    match w
    case Prepare(_, _, _) => PendingPristine
    case PublishReceipt => PendingUnmarkedReceipt
    case MarkReceipt => PendingReceipt
    case RecordAttestation(_, _) => PendingAttestedRetainedReceipt
    case RemoveReceipt => PendingAttested
    case Finish => Terminal
  }

  /** From an accepted tuple, an allowed write leads to a tuple accepted under that write's label,
      provided a recorded attestation id is a canonical UUID. */
  lemma WriteIsLabelled(t: Tuple, receipt: Receipt, w: Write)
    requires Label(t, receipt).Ok? && Guard(t, receipt, w) && (w.RecordAttestation? ==> Uuid(w.id))
    ensures Label(After(t, receipt, w).0, After(t, receipt, w).1) == Ok(LabelAfter(w))
  {
    hide Uuid, LooseId, Hex;
    if w.RecordAttestation? {
      NonemptyShapes(w.id, w.contract);
    }
  }

  lemma NonemptyShapes(id: string, contract: string)
    ensures Uuid(id) ==> id != ""
    ensures Sha256(contract) ==> contract != ""
  {
  }

  /** The workflow's own test for the attestation id is looser than the validator's: recording an id is accepted
      exactly when it is a canonical UUID. */
  lemma RecordedIdMustBeCanonical(t: Tuple, receipt: Receipt, id: string, contract: string)
    requires Label(t, receipt).Ok? && Guard(t, receipt, RecordAttestation(id, contract))
    ensures var (t', r') := After(t, receipt, RecordAttestation(id, contract));
            if Uuid(id) then Label(t', r') == Ok(PendingAttestedRetainedReceipt) else Label(t', r') == Err(BadAttestation)
  {
    if Uuid(id) {
      WriteIsLabelled(t, receipt, RecordAttestation(id, contract));
    } else {
      hide Uuid;
      assert id != "" && Binary(After(t, receipt, RecordAttestation(id, contract)).0.pending);
    }
  }

  /** Every state of every run is accepted and labelled with the step it reached. */
  lemma {:induction false} RunsAreLabelled(d: Durable, writes: seq<Write>)
    requires OnceEach(d.lines) && Current(d) == PRISTINE && d.receipt == NoReceipt
    requires RunWrites(d, writes).Some? && CanonicalIds(writes)
    ensures var end := RunWrites(d, writes).value;
            OnceEach(end.lines)
            && Label(Current(end), end.receipt) == Ok(if writes == [] then PristineState else LabelAfter(writes[|writes| - 1]))
  {
    hide OnceEach, ReadTuple, Written, Guard, After;
    if writes == [] {
      PristineIsLabelled();
    } else {
      hide Label;
      var before := RunWrites(d, writes[..|writes| - 1]).value;
      var w := writes[|writes| - 1];
      RunsAreLabelled(d, writes[..|writes| - 1]);
      WrittenReads(before, w);
      WriteIsLabelled(Current(before), before.receipt, w);
    }
  }

  lemma PristineIsLabelled()
    ensures Label(PRISTINE, NoReceipt) == Ok(PristineState)
  {
  }

  // ---------- every accepted tuple is reachable ----------

  ghost function RunTuple(t: Tuple, receipt: Receipt, writes: seq<Write>): Option<(Tuple, Receipt)>
    decreases |writes|
  {
    if writes == [] then Some((t, receipt))
    else if Guard(t, receipt, writes[0]) then RunTuple(After(t, receipt, writes[0]).0, After(t, receipt, writes[0]).1, writes[1..])
    else None
  }

  ghost function RunForward(d: Durable, writes: seq<Write>): Option<Durable>
    decreases |writes|
  {
    if writes == [] then Some(d)
    else if Allowed(d, writes[0]) then RunForward(Written(d, writes[0]), writes[1..])
    else None
  }

  lemma {:induction false} ForwardIsRun(d: Durable, first: seq<Write>, rest: seq<Write>)
    requires RunWrites(d, first).Some?
    ensures RunWrites(d, first + rest) == RunForward(RunWrites(d, first).value, rest)
    decreases |rest|
  {
    hide RunWrites, RunForward, Written, Allowed;
    if rest == [] {
      assert first + rest == first;
      RunForwardStep(RunWrites(d, first).value, rest);
    } else {
      RunWritesStep(d, first, rest[0]);
      RunForwardStep(RunWrites(d, first).value, rest);
      assert first + rest == (first + [rest[0]]) + rest[1..];
      if RunWrites(d, first + [rest[0]]).Some? {
        ForwardIsRun(d, first + [rest[0]], rest[1..]);
      } else {
        NoRunAfterRefusal(d, first + [rest[0]], rest[1..]);
      }
    }
  }

  lemma RunForwardStep(d: Durable, writes: seq<Write>)
    ensures RunForward(d, writes) ==
            if writes == [] then Some(d)
            else if Allowed(d, writes[0]) then RunForward(Written(d, writes[0]), writes[1..]) else None
  {
  }

  lemma RunWritesStep(d: Durable, first: seq<Write>, w: Write)
    requires RunWrites(d, first).Some?
    ensures RunWrites(d, first + [w]) ==
            if Allowed(RunWrites(d, first).value, w) then Some(Written(RunWrites(d, first).value, w)) else None
  {
    assert (first + [w])[..|first|] == first;
  }

  lemma {:induction false} NoRunAfterRefusal(d: Durable, first: seq<Write>, rest: seq<Write>)
    requires RunWrites(d, first) == None
    ensures RunWrites(d, first + rest) == None
  {
    if rest == [] {
      assert first + rest == first;
    } else {
      assert (first + rest)[..|first + rest| - 1] == first + rest[..|rest| - 1];
      NoRunAfterRefusal(d, first, rest[..|rest| - 1]);
    }
  }

  lemma {:induction false} TupleRunIsRealised(d: Durable, writes: seq<Write>)
    requires OnceEach(d.lines) && RunTuple(Current(d), d.receipt, writes).Some?
    ensures RunForward(d, writes).Some? && OnceEach(RunForward(d, writes).value.lines)
    ensures (Current(RunForward(d, writes).value), RunForward(d, writes).value.receipt) == RunTuple(Current(d), d.receipt, writes).value
    decreases |writes|
  {
    if writes != [] {
      hide OnceEach, ReadTuple, Written, Guard, After;
      WrittenReads(d, writes[0]);
      TupleRunIsRealised(Written(d, writes[0]), writes[1..]);
    }
  }

  function Repeated(c: char, n: nat): string { seq(n, i => c) }

  const SOME_UUID: string := Repeated('0', 8) + "-" + Repeated('0', 4) + "-" + Repeated('0', 4) + "-" + Repeated('0', 4) + "-" + Repeated('0', 12)

  lemma SomeShapes()
    ensures Sha1(Repeated('0', 40)) && Sha256(Repeated('0', 64)) && Uuid(SOME_UUID) && LooseId(SOME_UUID)
  {
  }

  function Attested(sweeper: bool, revision: string, tree: string, id: string, contract: string): seq<Write> {
    [Prepare(sweeper, revision, tree), PublishReceipt, MarkReceipt, RecordAttestation(id, contract)]
  }

  /** The writes that lead from the pristine tuple to a given accepted tuple. */
  function PathTo(t: Tuple, receipt: Receipt): seq<Write> {
    var prepare := Prepare(t.sweeper == "1", t.revision, t.tree);
    if t.pending == "0" then
      if t.complete == "0" then []
      else Attested(true, Repeated('0', 40), Repeated('0', 64), SOME_UUID, t.contract) + [RemoveReceipt, Finish]
    else if t.attestation != "" then
      Attested(t.sweeper == "1", t.revision, t.tree, t.attestation, t.contract) + if receipt == NoReceipt then [RemoveReceipt] else []
    else if t.receiptExpected == "1" then [prepare, PublishReceipt, MarkReceipt]
    else if receipt != NoReceipt then [prepare, PublishReceipt]
    else [prepare]
  }

  lemma RunTupleStep(t: Tuple, receipt: Receipt, w: Write, rest: seq<Write>)
    requires Guard(t, receipt, w)
    ensures RunTuple(t, receipt, [w] + rest) == RunTuple(After(t, receipt, w).0, After(t, receipt, w).1, rest)
  {
    assert ([w] + rest)[1..] == rest;
  }

  lemma AttestedRun(sweeper: bool, revision: string, tree: string, id: string, contract: string, rest: seq<Write>)
    requires Sha1(revision) && Sha256(tree) && Sha256(contract) && LooseId(id) && id != ""
    ensures RunTuple(PRISTINE, NoReceipt, Attested(sweeper, revision, tree, id, contract) + rest)
         == RunTuple(Tuple("1", "0", if sweeper then "1" else "0", id, "0", contract, revision, tree), GoodReceipt, rest)
  {
    hide LooseId, Hex, RunTuple;
    var w := Attested(sweeper, revision, tree, id, contract);
    assert w + rest == [w[0]] + ([w[1]] + ([w[2]] + ([w[3]] + rest)));
    RunTupleStep(PRISTINE, NoReceipt, w[0], [w[1]] + ([w[2]] + ([w[3]] + rest)));
    var (t1, r1) := After(PRISTINE, NoReceipt, w[0]);
    RunTupleStep(t1, r1, w[1], [w[2]] + ([w[3]] + rest));
    RunTupleStep(t1, GoodReceipt, w[2], [w[3]] + rest);
    RunTupleStep(t1.(receiptExpected := "1"), GoodReceipt, w[3], rest);
  }

  /** A control plane answering 36 dashes: from an accepted state, itself reached from the pristine one, the workflow's guard
      admits the write, and the validator refuses the state it leaves behind. */
  lemma DashesAreLoose()
    ensures var dashes, revision, tree := Repeated('-', 36), Repeated('0', 40), Repeated('0', 64);
            var before := Tuple("1", "0", "0", "", "1", "", revision, tree);
            var write := RecordAttestation(dashes, tree);
            && Label(before, GoodReceipt).Ok? && Guard(before, GoodReceipt, write)
            && RunTuple(PRISTINE, NoReceipt, Attested(false, revision, tree, dashes, tree)) == Some(After(before, GoodReceipt, write))
            && Label(After(before, GoodReceipt, write).0, GoodReceipt) == Err(BadAttestation)
  {
    var dashes, revision, tree := Repeated('-', 36), Repeated('0', 40), Repeated('0', 64);
    var before := Tuple("1", "0", "0", "", "1", "", revision, tree);
    SomeShapes();
    DashesShapes();
    assert Label(before, GoodReceipt).Ok?;
    hide Label;
    RecordedIdMustBeCanonical(before, GoodReceipt, dashes, tree);
    AttestedRun(false, revision, tree, dashes, tree, []);
    assert Attested(false, revision, tree, dashes, tree) + [] == Attested(false, revision, tree, dashes, tree);
    NoMoreWrites(After(before, GoodReceipt, RecordAttestation(dashes, tree)).0, GoodReceipt);
  }

  lemma DashesShapes()
    ensures LooseId(Repeated('-', 36)) && !Uuid(Repeated('-', 36)) && Repeated('-', 36) != ""
  {
    assert !AnyHex(Repeated('-', 36)[0]);
  }

  lemma UuidIsLoose(id: string)
    requires Uuid(id)
    ensures LooseId(id)
  {
  }

  lemma NoMoreWrites(t: Tuple, receipt: Receipt)
    ensures RunTuple(t, receipt, []) == Some((t, receipt))
  {
  }

  lemma PathReaches(t: Tuple, receipt: Receipt)
    requires Label(t, receipt).Ok?
    ensures RunTuple(PRISTINE, NoReceipt, PathTo(t, receipt)) == Some((t, receipt)) && CanonicalIds(PathTo(t, receipt))
  {
    SomeShapes();
    NoMoreWrites(t, receipt);
    if t.attestation != "" {
      UuidIsLoose(t.attestation);
    }
    NonemptyShapes(SOME_UUID, t.contract);
    hide Uuid, LooseId, Hex, Repeated, RunTuple;
    var path := PathTo(t, receipt);
    if t.pending == "0" && t.complete == "1" {
      var (r40, r64) := (Repeated('0', 40), Repeated('0', 64));
      AttestedRun(true, r40, r64, SOME_UUID, t.contract, [RemoveReceipt, Finish]);
      var attested := Tuple("1", "0", "1", SOME_UUID, "0", t.contract, r40, r64);
      assert [RemoveReceipt, Finish] == [RemoveReceipt] + ([Finish] + []);
      RunTupleStep(attested, GoodReceipt, RemoveReceipt, [Finish] + []);
      RunTupleStep(attested, NoReceipt, Finish, []);
    } else if t.pending == "1" && t.attestation != "" {
      AttestedRun(t.sweeper == "1", t.revision, t.tree, t.attestation, t.contract, if receipt == NoReceipt then [RemoveReceipt] else []);
      if receipt == NoReceipt {
        assert [RemoveReceipt] == [RemoveReceipt] + [];
        RunTupleStep(t, GoodReceipt, RemoveReceipt, []);
      }
    } else if t.pending == "1" {
      var (t1, r1) := After(PRISTINE, NoReceipt, path[0]);
      RunTupleStep(PRISTINE, NoReceipt, path[0], path[1..]);
      assert path == [path[0]] + path[1..];
      if |path| >= 2 {
        assert path[1..] == [PublishReceipt] + path[2..];
        RunTupleStep(t1, r1, PublishReceipt, path[2..]);
        if |path| == 3 {
          assert path[2..] == [MarkReceipt] + [];
          RunTupleStep(t1, GoodReceipt, MarkReceipt, []);
        }
      }
    }
  }

  /** From any bootstrapped file, exactly the accepted tuples are reachable (attestation ids being canonical). */
  lemma ReachableIsAccepted(d: Durable, t: Tuple, receipt: Receipt)
    requires OnceEach(d.lines) && Current(d) == PRISTINE && d.receipt == NoReceipt
    ensures Label(t, receipt).Ok? <==>
            exists writes: seq<Write> :: CanonicalIds(writes) && RunWrites(d, writes).Some? && OnceEach(RunWrites(d, writes).value.lines)
              && Current(RunWrites(d, writes).value) == t && RunWrites(d, writes).value.receipt == receipt
  {
    hide OnceEach, ReadTuple, Written, Guard, After, Label, RunTuple, RunForward, PathTo;
    if Label(t, receipt).Ok? {
      var path := PathTo(t, receipt);
      PathReaches(t, receipt);
      TupleRunIsRealised(d, path);
      ForwardIsRun(d, [], path);
      assert [] + path == path;
    }
    forall writes: seq<Write> | CanonicalIds(writes) && RunWrites(d, writes).Some? && OnceEach(RunWrites(d, writes).value.lines)
      && Current(RunWrites(d, writes).value) == t && RunWrites(d, writes).value.receipt == receipt
      ensures Label(t, receipt).Ok?
    {
      RunsAreLabelled(d, writes);
    }
  }

  /** No run touches any other variable of the environment file. */
  lemma {:induction false} OtherVariablesKept(d: Durable, writes: seq<Write>, key: string)
    requires RunWrites(d, writes).Some? && key !in FIELDS && key != ""
    ensures Values(RunWrites(d, writes).value.lines, key) == Values(d.lines, key)
  {
    if writes != [] {
      var before := RunWrites(d, writes[..|writes| - 1]).value;
      OtherVariablesKept(d, writes[..|writes| - 1], key);
      WriteKeepsOthers(before, writes[|writes| - 1], key);
    }
  }

  lemma WriteKeepsOthers(d: Durable, w: Write, key: string)
    requires Allowed(d, w) && key !in FIELDS && key != ""
    ensures Values(Written(d, w).lines, key) == Values(d.lines, key)
  {
    hide OnceEach, ReadTuple, Guard, Values, SetVariables;
    forall t: Tuple ensures Values(SetVariables(d.lines, FieldUpdates(t)), key) == Values(d.lines, key) {
      FieldUpdatesMiss(t, key);
      SetVariablesValues(d.lines, FieldUpdates(t), key);
    }
    FieldsDiffer();
    assert EXPECTED == FIELDS[4];
    assert key != EXPECTED;
    LookupMisses([(EXPECTED, "1")], key);
    SetVariablesValues(d.lines, [(EXPECTED, "1")], key);
  }

  lemma FieldUpdatesMiss(t: Tuple, key: string)
    requires key !in FIELDS
    ensures ProperUpdates(FieldUpdates(t)) && Lookup(FieldUpdates(t), key) == None
  {
    LookupField(t, 0);
    assert forall i :: 0 <= i < |FIELDS| ==> FieldUpdates(t)[i].0 == FIELDS[i];
    LookupMisses(FieldUpdates(t), key);
  }

  // ---------- the caller's requirements ----------

  /** Which states a caller may require, told by the write that led there: idle after the last write alone, certifiable from the
      published receipt to its removal. */
  lemma RequirementFollowsStep(t: Tuple, receipt: Receipt, w: Write)
    requires Label(t, receipt).Ok? && Guard(t, receipt, w) && (w.RecordAttestation? ==> Uuid(w.id))
    ensures var (t', r') := After(t, receipt, w);
            && (Validate(t', r', NonPending, None, None).Ok? <==> w.Finish?)
            && (Validate(t', r', PendingCertifiable, None, None).Ok? <==> !w.Prepare? && !w.Finish?)
  {
    WriteIsLabelled(t, receipt, w);
    assert After(t, receipt, w).0.pending == if w.Finish? then "0" else "1" by { hide Uuid, LooseId, Hex; }
    hide FieldShape, ReceiptShape, Kind, After, Guard;
  }

  /** The deployment source a caller supplies: half of it is an error; a pending state accepts exactly the source it was prepared
      for, an idle one any well-formed source. */
  lemma SourceIsBinding(t: Tuple, receipt: Receipt, revision: Option<string>, tree: Option<string>)
    requires Label(t, receipt).Ok?
    ensures Validate(t, receipt, AnyState, revision, tree).Ok? <==>
              if revision == None || tree == None then revision == tree
              else if t.pending == "1" then revision.value == t.revision && tree.value == t.tree
              else Hex(revision.value, 40) && Hex(tree.value, 64)
    ensures Validate(t, receipt, AnyState, revision, tree).Ok? ==> Validate(t, receipt, AnyState, revision, tree) == Label(t, receipt)
  {
    PendingIsBound(t, receipt);
    hide FieldShape, ReceiptShape, Kind, Hex;
  }

  lemma PendingIsBound(t: Tuple, receipt: Receipt)
    requires Label(t, receipt).Ok?
    ensures t.pending == "0" || t.pending == "1"
    ensures t.pending == "1" ==> Sha1(t.revision) && Sha256(t.tree)
  {
  }

  /** The source stays bound from the preparation to the end: a pending state can only be prepared again for the same one. */
  lemma SourceIsKept(t: Tuple, receipt: Receipt, w: Write)
    requires Label(t, receipt).Ok? && Guard(t, receipt, w)
    ensures var t' := After(t, receipt, w).0;
            match w
            case Prepare(_, revision, tree) => t'.revision == revision && t'.tree == tree
            case Finish => t'.revision == "" && t'.tree == ""
            case _ => t'.revision == t.revision && t'.tree == t.tree
    ensures t.pending == "1" && !w.Finish? ==> After(t, receipt, w).0.revision == t.revision && After(t, receipt, w).0.tree == t.tree
  {
    hide LooseId, Hex;
  }

  /** Whether the sweeper was running is remembered by the first preparation and kept until the end. */
  lemma SweeperIsKept(t: Tuple, receipt: Receipt, w: Write)
    requires Label(t, receipt).Ok? && Guard(t, receipt, w)
    ensures var t' := After(t, receipt, w).0;
            match w
            case Prepare(running, _, _) => t'.sweeper == if t.pending == "0" then (if running then "1" else "0") else t.sweeper
            case Finish => t'.sweeper == ""
            case _ => t'.sweeper == t.sweeper
  {
    PendingIsBound(t, receipt);
    hide LooseId, Hex, Label;
  }

  /** Which writes the workflow's guards let through, told by the label of the state alone. */
  lemma GuardsFollowLabels(t: Tuple, receipt: Receipt, w: Write)
    requires Label(t, receipt).Ok?
    ensures var kind := Label(t, receipt).value;
            Guard(t, receipt, w) <==>
              match w
              case Prepare(_, revision, tree) =>
                if kind == PendingPristine then revision == t.revision && tree == t.tree
                else kind in {PristineState, Terminal} && Hex(revision, 40) && Hex(tree, 64)
              case PublishReceipt => kind == PendingPristine
              case MarkReceipt => kind in {PendingUnmarkedReceipt, PendingReceipt}
              case RecordAttestation(id, contract) => kind == PendingReceipt && LooseId(id) && Hex(contract, 64)
              case RemoveReceipt => kind in {PendingAttested, PendingAttestedRetainedReceipt}
              case Finish => kind == PendingAttested
  {
    PendingIsBound(t, receipt);
    hide LooseId, Hex, Uuid;
  }

  /** Which variable of the file holds which part of the tuple. */
  lemma ReadsByName(lines: Lines)
    requires OnceEach(lines)
    ensures var t := ReadTuple(lines);
            && Values(lines, "OPENCFD2606_CUTOVER_PENDING") == [t.pending] && Values(lines, "OPENCFD2606_CUTOVER_COMPLETE") == [t.complete]
            && Values(lines, "OPENCFD2606_CUTOVER_SWEEPER_WAS_RUNNING") == [t.sweeper]
            && Values(lines, "OPENCFD2606_CANARY_ATTESTATION_ID") == [t.attestation]
            && Values(lines, "OPENCFD2606_CANARY_RECEIPT_EXPECTED") == [t.receiptExpected]
            && Values(lines, "OPENCFD2606_CERTIFIED_EVIDENCE_CONTRACT_SHA256") == [t.contract]
            && Values(lines, "OPENCFD2606_CUTOVER_SOURCE_REVISION") == [t.revision]
            && Values(lines, "OPENCFD2606_CUTOVER_SOURCE_TREE_SHA256") == [t.tree]
  {
    assert FIELDS[0] == PENDING && FIELDS[1] == COMPLETE && FIELDS[2] == SWEEPER && FIELDS[3] == ATTESTATION;
    assert FIELDS[4] == EXPECTED && FIELDS[5] == CONTRACT && FIELDS[6] == REVISION && FIELDS[7] == TREE;
    hide Values;
    forall i | 0 <= i < |FIELDS| ensures Values(lines, FIELDS[i]) == [Values(lines, FIELDS[i])[0]] {
      assert |Values(lines, FIELDS[i])| == 1;
    }
  }

  // ---------- the labels in full ----------

  /** Exactly this many lower-case hexadecimal digits. */
  predicate Digest(s: string, n: nat) { |s| == n && forall i :: 0 <= i < n ==> s[i] in "0123456789abcdef" }

  predicate Between(c: char, low: char, high: char) { low <= c <= high }

  lemma LowerHexIs(c: char)
    ensures LowerHex(c) <==> c in "0123456789abcdef"
    ensures AnyHex(c) <==> c in "0123456789abcdefABCDEF"
  {
    if Between(c, '0', '9') || Between(c, 'a', 'f') || Between(c, 'A', 'F') {
      CharacterListed(c);
    }
    assert c in "0123456789abcdef" ==> Between(c, '0', '9') || Between(c, 'a', 'f');
    assert c in "0123456789abcdefABCDEF" ==> Between(c, '0', '9') || Between(c, 'a', 'f') || Between(c, 'A', 'F');
  }

  lemma CharacterListed(c: char)
    requires Between(c, '0', '9') || Between(c, 'a', 'f') || Between(c, 'A', 'F')
    ensures c in "0123456789abcdefABCDEF" && (!Between(c, 'A', 'F') ==> c in "0123456789abcdef")
  {
    var listed, low := "0123456789abcdefABCDEF", "0123456789abcdef";
    var k := if Between(c, '0', '9') then c as int - '0' as int
             else if Between(c, 'a', 'f') then 10 + (c as int - 'a' as int) else 16 + (c as int - 'A' as int);
    assert listed[k] == c;
    assert k < 16 ==> low[k] == c;
  }

  lemma HexIs(s: string, n: nat)
    ensures Hex(s, n) <==> Digest(s, n)
  {
    forall i | 0 <= i < |s| ensures LowerHex(s[i]) <==> s[i] in "0123456789abcdef" {
      LowerHexIs(s[i]);
    }
  }

  /** The two shapes of an attestation id: the validator's, with its dashes in their places, and the workflow's, with dashes anywhere. */
  lemma IdShapes(s: string)
    ensures Uuid(s) <==> |s| == 36 && s[8] == s[13] == s[18] == s[23] == '-'
                         && forall i :: 0 <= i < 36 && i != 8 && i != 13 && i != 18 && i != 23 ==> s[i] in "0123456789abcdefABCDEF"
    ensures LooseId(s) <==> |s| == 36 && forall c :: c in s ==> c in "0123456789abcdefABCDEF-"
  {
    forall i | 0 <= i < |s|
      ensures AnyHex(s[i]) <==> s[i] in "0123456789abcdefABCDEF"
      ensures s[i] in "0123456789abcdefABCDEF-" <==> s[i] in "0123456789abcdefABCDEF" || s[i] == '-'
    {
      LowerHexIs(s[i]);
      assert "0123456789abcdefABCDEF-" == "0123456789abcdefABCDEF" + "-";
    }
  }

  /** What each label stands for. */
  predicate Labelled(t: Tuple, receipt: Receipt, kind: StateKind) {
    match kind
    case PristineState => t == Tuple("0", "0", "", "", "0", "", "", "") && receipt == NoReceipt
    case Terminal => t == Tuple("0", "1", "", "", "0", t.contract, "", "") && Digest(t.contract, 64) && receipt == NoReceipt
    case PendingPristine => Unattested(t) && t.receiptExpected == "0" && receipt == NoReceipt
    case PendingUnmarkedReceipt => Unattested(t) && t.receiptExpected == "0" && receipt == GoodReceipt
    case PendingReceipt => Unattested(t) && t.receiptExpected == "1" && receipt == GoodReceipt
    case PendingAttested => Certified(t) && receipt == NoReceipt
    case PendingAttestedRetainedReceipt => Certified(t) && receipt == GoodReceipt
  }

  lemma IdleLabels(t: Tuple, receipt: Receipt, kind: StateKind)
    requires t.pending != "1"
    ensures Label(t, receipt) == Ok(kind) <==> Labelled(t, receipt, kind)
  {
    HexIs(t.contract, 64);
    hide Hex, Uuid, Digest;
  }

  lemma PendingLabels(t: Tuple, receipt: Receipt, kind: StateKind)
    requires t.pending == "1"
    ensures Label(t, receipt) == Ok(kind) <==> Labelled(t, receipt, kind)
  {
    HexIs(t.contract, 64);
    HexIs(t.revision, 40);
    HexIs(t.tree, 64);
    hide Hex, Uuid, Digest;
  }

  /** Which tuples, beside which receipt, get which label: the validator in full. */
  lemma LabelsInFull(t: Tuple, receipt: Receipt, kind: StateKind)
    ensures Label(t, receipt) == Ok(kind) <==> Labelled(t, receipt, kind)
  {
    hide *;
    if t.pending == "1" {
      PendingLabels(t, receipt, kind);
    } else {
      IdleLabels(t, receipt, kind);
    }
  }

  /** Pending, bound to a source, nothing certified yet. */
  predicate Unattested(t: Tuple) {
    && t.pending == "1" && t.complete == "0" && (t.sweeper == "0" || t.sweeper == "1") && t.attestation == "" && t.contract == ""
    && Digest(t.revision, 40) && Digest(t.tree, 64)
  }

  /** Pending and certified: the attestation and its contract are recorded and no receipt is expected any more. */
  predicate Certified(t: Tuple) {
    && t.pending == "1" && t.complete == "0" && (t.sweeper == "0" || t.sweeper == "1") && Uuid(t.attestation) && t.receiptExpected == "0"
    && Digest(t.contract, 64) && Digest(t.revision, 40) && Digest(t.tree, 64)
  }
}
