/** No-clobber publication of a receipt by hard link, under interleaved writers, failing calls and power loss.

    The directory keeps a volatile entry table and a durable one. The kernel may write any name or any file back
    at any moment; a crash throws away whatever was not written back. Writer w owns the name Private(w) and the
    inode w; all writers share the one name Destination. */
module ReceiptPublication {

  datatype Name = Destination | Private(writer: nat)

  type Bytes = seq<int>

  datatype File = File(bytes: Bytes, restricted: bool)

  /** A file's contents in memory and on disk. */
  datatype Inode = Inode(cache: File, disk: File)

  datatype FileSystem = FileSystem(inodes: map<nat, Inode>, entries: map<Name, nat>, durable: map<Name, nat>)

  // ---------- file-system calls ----------

  function SyncFile(fs: FileSystem, i: nat): FileSystem {
    if i in fs.inodes then fs.(inodes := fs.inodes[i := Inode(fs.inodes[i].cache, fs.inodes[i].cache)]) else fs
  }

  function Restrict(fs: FileSystem, i: nat): FileSystem {
    if i in fs.inodes then fs.(inodes := fs.inodes[i := fs.inodes[i].(cache := fs.inodes[i].cache.(restricted := true))]) else fs
  }

  function Append(fs: FileSystem, i: nat, more: Bytes): FileSystem {
    if i in fs.inodes then
      fs.(inodes := fs.inodes[i := fs.inodes[i].(cache := fs.inodes[i].cache.(bytes := fs.inodes[i].cache.bytes + more))])
    else fs
  }

  function Create(fs: FileSystem, w: nat, file: File): FileSystem {
    fs.(inodes := fs.inodes[w := Inode(file, File([], false))], entries := fs.entries[Private(w) := w])
  }

  /** The caller must have seen that Destination is absent: link() itself fails with EEXIST otherwise. */
  function Link(fs: FileSystem, w: nat): FileSystem { fs.(entries := fs.entries[Destination := w]) }

  function Unlink(fs: FileSystem, w: nat): FileSystem { fs.(entries := fs.entries - {Private(w)}) }

  function SyncDirectory(fs: FileSystem): FileSystem { fs.(durable := fs.entries) }

  function WriteBackName(fs: FileSystem, n: Name): FileSystem {
    fs.(durable := if n in fs.entries then fs.durable[n := fs.entries[n]] else fs.durable - {n})
  }

  function PowerLoss(fs: FileSystem): FileSystem {
    fs.(entries := fs.durable, inodes := map i | i in fs.inodes :: Inode(fs.inodes[i].disk, fs.inodes[i].disk))
  }

  // ---------- writers ----------

  datatype Kind = Persist | Attest | Verify

  /** Where a writer stands in its program; each step is one call. */
  datatype Step =
    | CheckAbsent | CreateTemporary | WriteContents | LoadAndValidate | RestrictFile | SyncContents
    | LinkDestination | UnlinkPrivate | SyncParent | CleanUp(succeeded: bool) | Returned | Failed

  /** `written` counts the bytes of `intended` already written by an attester. */
  datatype Writer = Writer(kind: Kind, step: Step, intended: Bytes, written: nat)

  /** `created` are the writers whose link() made the destination since the last crash;
      `succeeded` are those that ever returned success. `used` are all writer numbers ever started. */
  datatype System = System(fs: FileSystem, writers: map<nat, Writer>, used: set<nat>, payloads: map<nat, Writer>,
                           created: set<nat>, succeeded: set<nat>)

  type Validator = Bytes -> bool

  datatype Event =
    | Start(writer: nat, kind: Kind, contents: Bytes)
    | Act(writer: nat)
    | WriteSome(writer: nat, count: nat)
    | CallFails(writer: nat)
    | WriteBack(name: Name)
    | FlushFile(inode: nat)
    | Crash

  const INITIAL := System(FileSystem(map[], map[], map[]), map[], {}, map[], {}, {})

  function WithStep(s: System, w: nat, step: Step): System
    requires w in s.writers
  {
    s.(writers := s.writers[w := s.writers[w].(step := step)])
  }

  function Started(s: System, w: nat, kind: Kind, contents: Bytes): System {
    var writer := Writer(kind, if kind == Verify then LoadAndValidate else CheckAbsent, contents, 0);
    var s' := s.(writers := s.writers[w := writer], used := s.used + {w}, payloads := s.payloads[w := writer]);
    if kind == Persist then s'.(fs := Create(s.fs, w, File(contents, false))) else s'
  }

  /** The inode a writer validates and syncs: its own, or for a verifier the destination's. */
  function Subject(s: System, w: nat): nat
    requires w in s.writers
  {
    if s.writers[w].kind == Verify && Destination in s.fs.entries then s.fs.entries[Destination] else w
  }

  /** One successful call of writer w. */
  function Acted(accept: Validator, s: System, w: nat): System
    requires w in s.writers
  {
    var writer := s.writers[w];
    match writer.step
    case CheckAbsent =>
      if Destination in s.fs.entries then WithStep(s, w, Failed)
      else WithStep(s, w, if writer.kind == Attest then CreateTemporary else LoadAndValidate)
    case CreateTemporary =>
      WithStep(s.(fs := Create(s.fs, w, File([], false))), w, RestrictFile)
    case LoadAndValidate =>
      if writer.kind == Verify && Destination !in s.fs.entries then WithStep(s, w, Failed)
      else if Subject(s, w) in s.fs.inodes && accept(s.fs.inodes[Subject(s, w)].cache.bytes) then WithStep(s, w, RestrictFile)
      else WithStep(s, w, Failed)
    case RestrictFile =>
      WithStep(s.(fs := Restrict(s.fs, Subject(s, w))), w, if writer.kind == Attest then WriteContents else SyncContents)
    case WriteContents =>
      if writer.written == |writer.intended| then WithStep(s, w, SyncContents) else s
    case SyncContents =>
      WithStep(s.(fs := SyncFile(s.fs, Subject(s, w))), w, if writer.kind == Verify then SyncParent else LinkDestination)
    case LinkDestination =>
      if Destination in s.fs.entries then WithStep(s, w, if writer.kind == Attest then CleanUp(false) else Failed)
      else WithStep(s.(fs := Link(s.fs, w), created := s.created + {w}), w, UnlinkPrivate)
    case UnlinkPrivate =>
      WithStep(s.(fs := Unlink(s.fs, w)), w, SyncParent)
    case SyncParent =>
      var s' := s.(fs := SyncDirectory(s.fs));
      if writer.kind == Attest then WithStep(s', w, CleanUp(true))
      else WithStep(s'.(succeeded := s.succeeded + {w}), w, Returned)
    case CleanUp(succeeded) =>
      var s' := s.(fs := Unlink(s.fs, w));
      if succeeded then WithStep(s'.(succeeded := s.succeeded + {w}), w, Returned) else WithStep(s', w, Failed)
    case Returned => s
    case Failed => s
  }

  function WroteSome(s: System, w: nat, count: nat): System
    requires w in s.writers
  {
    var writer := s.writers[w];
    if writer.step == WriteContents && writer.written + count <= |writer.intended| then
      s.(fs := Append(s.fs, w, writer.intended[writer.written..writer.written + count]),
         writers := s.writers[w := writer.(written := writer.written + count)])
    else s
  }

  /** A call raises: the attester runs its cleanup, the others stop. */
  function CallFailed(s: System, w: nat): System
    requires w in s.writers
  {
    match s.writers[w].step
    case Returned => s
    case Failed => s
    case CleanUp(_) => WithStep(s, w, Failed)
    case CheckAbsent => WithStep(s, w, Failed)
    case CreateTemporary => WithStep(s, w, Failed)
    case _ => WithStep(s, w, if s.writers[w].kind == Attest then CleanUp(false) else Failed)
  }

  function Next(accept: Validator, s: System, e: Event): System {
    match e
    case Start(w, kind, contents) => if w in s.used then s else Started(s, w, kind, contents)
    case Act(w) => if w in s.writers then Acted(accept, s, w) else s
    case WriteSome(w, count) => if w in s.writers then WroteSome(s, w, count) else s
    case CallFails(w) => if w in s.writers then CallFailed(s, w) else s
    case WriteBack(n) => s.(fs := WriteBackName(s.fs, n))
    case FlushFile(i) => s.(fs := SyncFile(s.fs, i))
    case Crash => s.(fs := PowerLoss(s.fs), writers := map[], created := {})
  }

  function Run(accept: Validator, s: System, events: seq<Event>): System
    decreases |events|
  {
    if events == [] then s else Next(accept, Run(accept, s, events[..|events| - 1]), events[|events| - 1])
  }

  // ---------- the invariant ----------

  /** A complete, restricted file, the same in memory and on disk; validated if it came from persist_receipt. */
  ghost predicate Complete(accept: Validator, s: System, w: nat) {
    && w in s.payloads && w in s.fs.inodes && s.payloads[w].kind != Verify
    && s.fs.inodes[w] == Inode(File(s.payloads[w].intended, true), File(s.payloads[w].intended, true))
    && (s.payloads[w].kind == Persist ==> accept(s.payloads[w].intended))
  }

  ghost predicate DestinationHolds(accept: Validator, s: System) {
    && (Destination in s.fs.entries ==> Complete(accept, s, s.fs.entries[Destination]))
    && (Destination in s.fs.durable ==> Destination in s.fs.entries && s.fs.durable[Destination] == s.fs.entries[Destination])
  }

  /** What a running writer has established so far. */
  ghost predicate WriterHolds(accept: Validator, s: System, w: nat)
    requires w in s.writers
  {
    var writer := s.writers[w];
    var own := w in s.fs.inodes;
    && w in s.used && w in s.payloads && s.payloads[w].kind == writer.kind && s.payloads[w].intended == writer.intended
    && (writer.kind == Persist ==> own && s.fs.inodes[w].cache.bytes == writer.intended)
    && match writer.step
       case CheckAbsent => writer.kind != Verify && writer.written == 0 && NotDestination(s, w)
       case CreateTemporary => writer.kind == Attest && writer.written == 0 && NotDestination(s, w)
       case LoadAndValidate => writer.kind != Attest && NotDestination(s, w)
       case RestrictFile =>
         && (writer.kind == Verify ==> Destination in s.fs.entries)
         && (writer.kind == Persist ==> accept(writer.intended))
         && (writer.kind == Attest ==> own && writer.written == 0 && s.fs.inodes[w].cache.bytes == [])
         && NotDestination(s, w)
       case WriteContents =>
         writer.kind == Attest && own && writer.written <= |writer.intended|
         && s.fs.inodes[w].cache == File(writer.intended[..writer.written], true) && NotDestination(s, w)
       case SyncContents =>
         && (writer.kind == Verify ==> Destination in s.fs.entries)
         && (writer.kind != Verify ==> own && s.fs.inodes[w].cache == File(writer.intended, true))
         && (writer.kind == Persist ==> accept(writer.intended))
         && NotDestination(s, w)
       case LinkDestination => Complete(accept, s, w) && NotDestination(s, w)
       case UnlinkPrivate => writer.kind != Verify && Destination in s.fs.entries && s.fs.entries[Destination] == w
       case SyncParent => Destination in s.fs.entries && (writer.kind != Verify ==> s.fs.entries[Destination] == w)
       case CleanUp(succeeded) =>
         writer.kind == Attest && (succeeded ==> Destination in s.fs.durable && s.fs.durable[Destination] == w)
       case Returned => Destination in s.fs.durable && (writer.kind != Verify ==> s.fs.durable[Destination] == w)
       case Failed => true
  }

  ghost predicate NotDestination(s: System, w: nat) {
    Destination in s.fs.entries ==> s.fs.entries[Destination] != w
  }

  ghost predicate Invariant(accept: Validator, s: System) {
    && DestinationHolds(accept, s)
    && (forall w :: w in s.writers ==> WriterHolds(accept, s, w))
    && (forall w :: w in s.payloads ==> w in s.used)
    && (forall w :: w in s.fs.inodes ==> w in s.used)
    && (forall w :: w in s.created ==> Destination in s.fs.entries && s.fs.entries[Destination] == w)
    && (forall w :: w in s.succeeded ==> SuccessHolds(s, w))
  }

  ghost predicate SuccessHolds(s: System, w: nat) {
    w in s.payloads && Destination in s.fs.durable && (s.payloads[w].kind != Verify ==> s.fs.durable[Destination] == w)
  }

  lemma InvariantStarts(accept: Validator)
    ensures Invariant(accept, INITIAL)
  {
  }

  /** Steps that leave the destination, the durable table and the other writers' files alone. */
  ghost predicate Untouched(s: System, s': System, w: nat) {
    && s'.payloads == s.payloads && s'.used == s.used && s'.created == s.created && s'.succeeded == s.succeeded
    && s'.fs.durable == s.fs.durable
    && (Destination in s'.fs.entries <==> Destination in s.fs.entries)
    && (Destination in s.fs.entries ==> s'.fs.entries[Destination] == s.fs.entries[Destination])
    && (forall v :: v in s.writers && v != w ==> v in s'.writers && s'.writers[v] == s.writers[v])
    && (forall v :: v in s'.writers ==> v in s.writers)
    && (forall i :: i in s.fs.inodes && i != w ==> i in s'.fs.inodes && s'.fs.inodes[i] == s.fs.inodes[i])
    && (forall i :: i in s'.fs.inodes ==> i in s.fs.inodes || i == w)
  }

  lemma UntouchedKeeps(accept: Validator, s: System, s': System, w: nat)
    requires Invariant(accept, s) && Untouched(s, s', w) && w in s.used
    requires w in s'.writers ==> WriterHolds(accept, s', w)
    requires Destination in s.fs.entries && s.fs.entries[Destination] == w ==> w in s'.fs.inodes && w in s.fs.inodes && s'.fs.inodes[w] == s.fs.inodes[w]
    ensures Invariant(accept, s')
  {
    forall v | v in s'.writers && v != w ensures WriterHolds(accept, s', v) {
      assert WriterHolds(accept, s, v);
    }
    forall v | v in s'.succeeded ensures SuccessHolds(s', v) {
      assert SuccessHolds(s, v);
    }
  }

  /** A verifier's chmod and fsync find the destination already restricted and synced. */
  lemma VerifierChangesNoFile(accept: Validator, s: System, w: nat)
    requires Invariant(accept, s) && w in s.writers && s.writers[w].kind == Verify && Destination in s.fs.entries
    ensures var i := Subject(s, w);
            i == s.fs.entries[Destination] && Restrict(s.fs, i) == s.fs && SyncFile(s.fs, i) == s.fs
  {
    var i := s.fs.entries[Destination];
    assert Complete(accept, s, i);
    assert s.fs.inodes[i := s.fs.inodes[i]] == s.fs.inodes;
  }

  lemma QuietActKeeps(accept: Validator, s: System, w: nat)
    requires Invariant(accept, s) && w in s.writers
    requires s.writers[w].step in {CheckAbsent, CreateTemporary, LoadAndValidate, RestrictFile, WriteContents, SyncContents}
    ensures Invariant(accept, Acted(accept, s, w))
  {
    assert WriterHolds(accept, s, w);
    if s.writers[w].kind == Verify && Destination in s.fs.entries {
      VerifierChangesNoFile(accept, s, w);
    }
    UntouchedKeeps(accept, s, Acted(accept, s, w), w);
  }

  lemma LinkKeeps(accept: Validator, s: System, w: nat)
    requires Invariant(accept, s) && w in s.writers && s.writers[w].step == LinkDestination
    ensures Invariant(accept, Acted(accept, s, w))
  {
    assert WriterHolds(accept, s, w);
    var s' := Acted(accept, s, w);
    if Destination in s.fs.entries {
      UntouchedKeeps(accept, s, s', w);
    } else {
      assert Complete(accept, s', w);
      forall v | v in s'.writers && v != w ensures WriterHolds(accept, s', v) {
        assert WriterHolds(accept, s, v);
      }
    }
  }

  lemma SyncParentKeeps(accept: Validator, s: System, w: nat)
    requires Invariant(accept, s) && w in s.writers && s.writers[w].step == SyncParent
    ensures Invariant(accept, Acted(accept, s, w))
  {
    assert WriterHolds(accept, s, w);
    var s' := Acted(accept, s, w);
    forall v | v in s'.writers && v != w ensures WriterHolds(accept, s', v) {
      assert WriterHolds(accept, s, v);
    }
    forall v | v in s'.succeeded && v != w ensures SuccessHolds(s', v) {
      assert SuccessHolds(s, v);
    }
    if w in s.succeeded {
      assert SuccessHolds(s, w);
    }
  }

  lemma CleanUpKeeps(accept: Validator, s: System, w: nat)
    requires Invariant(accept, s) && w in s.writers && s.writers[w].step.CleanUp?
    ensures Invariant(accept, Acted(accept, s, w))
  {
    assert WriterHolds(accept, s, w);
    var s' := Acted(accept, s, w);
    forall v | v in s'.writers && v != w ensures WriterHolds(accept, s', v) {
      assert WriterHolds(accept, s, v);
    }
    forall v | v in s'.succeeded && v != w ensures SuccessHolds(s', v) {
      assert SuccessHolds(s, v);
    }
  }

  lemma ActKeeps(accept: Validator, s: System, w: nat)
    requires Invariant(accept, s) && w in s.writers
    ensures Invariant(accept, Acted(accept, s, w))
  {
    hide WriterHolds, DestinationHolds, SuccessHolds, Acted;
    match s.writers[w].step
    case LinkDestination => LinkKeeps(accept, s, w);
    case UnlinkPrivate => UnlinkKeeps(accept, s, w);
    case SyncParent => SyncParentKeeps(accept, s, w);
    case CleanUp(_) => CleanUpKeeps(accept, s, w);
    case Returned => FinishedActs(accept, s, w);
    case Failed => FinishedActs(accept, s, w);
    case _ => QuietActKeeps(accept, s, w);
  }

  lemma UnlinkKeeps(accept: Validator, s: System, w: nat)
    requires Invariant(accept, s) && w in s.writers && s.writers[w].step == UnlinkPrivate
    ensures Invariant(accept, Acted(accept, s, w))
  {
    assert WriterHolds(accept, s, w);
    UntouchedKeeps(accept, s, Acted(accept, s, w), w);
  }

  lemma FinishedActs(accept: Validator, s: System, w: nat)
    requires w in s.writers && (s.writers[w].step == Returned || s.writers[w].step == Failed)
    ensures Acted(accept, s, w) == s
  {
  }

  lemma StartKeeps(accept: Validator, s: System, w: nat, kind: Kind, contents: Bytes)
    requires Invariant(accept, s) && w !in s.used
    ensures Invariant(accept, Started(s, w, kind, contents))
  {
    var s' := Started(s, w, kind, contents);
    assert w !in s.writers && w !in s.payloads && w !in s.fs.inodes;
    forall v | v in s'.writers && v != w ensures WriterHolds(accept, s', v) {
      assert WriterHolds(accept, s, v);
    }
    forall v | v in s'.succeeded ensures SuccessHolds(s', v) {
      assert SuccessHolds(s, v);
    }
  }

  lemma KernelKeeps(accept: Validator, s: System, e: Event)
    requires Invariant(accept, s) && (e.WriteBack? || e.FlushFile? || e.Crash?)
    ensures Invariant(accept, Next(accept, s, e))
  {
    var s' := Next(accept, s, e);
    forall v | v in s'.writers ensures WriterHolds(accept, s', v) {
      assert WriterHolds(accept, s, v);
    }
    forall v | v in s'.succeeded ensures SuccessHolds(s', v) {
      assert SuccessHolds(s, v);
    }
  }

  /** Every step of every writer, every failing call, every write-back and every crash keeps the invariant. */
  lemma NextKeeps(accept: Validator, s: System, e: Event)
    requires Invariant(accept, s)
    ensures Invariant(accept, Next(accept, s, e))
  {
    hide WriterHolds, DestinationHolds, SuccessHolds, Acted, Started, WroteSome, CallFailed;
    match e
    case Start(w, kind, contents) => if w !in s.used { StartKeeps(accept, s, w, kind, contents); }
    case Act(w) =>
      if w in s.writers {
        ActKeeps(accept, s, w);
      }
    case WriteSome(w, count) =>
      if w in s.writers {
        WriteSomeKeeps(accept, s, w, count);
      }
    case CallFails(w) =>
      if w in s.writers {
        FailedCallKeeps(accept, s, w);
      }
    case _ => KernelKeeps(accept, s, e);
  }

  lemma FailedCallKeeps(accept: Validator, s: System, w: nat)
    requires Invariant(accept, s) && w in s.writers
    ensures Invariant(accept, CallFailed(s, w))
  {
    assert WriterHolds(accept, s, w);
    UntouchedKeeps(accept, s, CallFailed(s, w), w);
  }

  lemma WriteSomeKeeps(accept: Validator, s: System, w: nat, count: nat)
    requires Invariant(accept, s) && w in s.writers
    ensures Invariant(accept, WroteSome(s, w, count))
  {
    assert WriterHolds(accept, s, w);
    var writer := s.writers[w];
    if writer.step == WriteContents && writer.written + count <= |writer.intended| {
      var k := writer.written;
      assert writer.intended[..k] + writer.intended[k..k + count] == writer.intended[..k + count];
      UntouchedKeeps(accept, s, WroteSome(s, w, count), w);
    }
  }

  /** The invariant holds after every run. */
  lemma {:induction false} RunKeeps(accept: Validator, events: seq<Event>)
    ensures Invariant(accept, Run(accept, INITIAL, events))
    decreases |events|
  {
    if events == [] {
      InvariantStarts(accept);
    } else {
      RunKeeps(accept, events[..|events| - 1]);
      NextKeeps(accept, Run(accept, INITIAL, events[..|events| - 1]), events[|events| - 1]);
    }
  }

  // ---------- what the protocol promises ----------

  /** In every reachable state the destination is absent or one complete, restricted, synced file, validated if persist_receipt made it. */
  lemma DestinationIsComplete(accept: Validator, events: seq<Event>)
    ensures var s := Run(accept, INITIAL, events);
            Destination in s.fs.entries ==> Complete(accept, s, s.fs.entries[Destination])
  {
    RunKeeps(accept, events);
  }

  /** Between crashes at most one writer creates the destination. */
  lemma OneCreator(accept: Validator, events: seq<Event>, v: nat, w: nat)
    requires var s := Run(accept, INITIAL, events); v in s.created && w in s.created
    ensures v == w
  {
    RunKeeps(accept, events);
  }

  /** One step never changes an existing destination; only a crash can remove it, and not once it is durable. */
  lemma DestinationIsStable(accept: Validator, s: System, e: Event)
    requires Invariant(accept, s) && Destination in s.fs.entries
    ensures var s', w := Next(accept, s, e), s.fs.entries[Destination];
            && (Destination in s'.fs.entries ==> s'.fs.entries[Destination] == w && w in s'.fs.inodes && w in s.fs.inodes && s'.fs.inodes[w] == s.fs.inodes[w])
            && (e != Crash ==> Destination in s'.fs.entries)
            && (Destination in s.fs.durable ==> Destination in s'.fs.durable && s'.fs.durable[Destination] == w && Destination in s'.fs.entries)
  {
    var w := s.fs.entries[Destination];
    NextKeeps(accept, s, e);
    assert Complete(accept, s, w);
    if e.Act? && e.writer in s.writers {
      assert WriterHolds(accept, s, e.writer);
    } else if e.WriteSome? && e.writer in s.writers {
      assert WriterHolds(accept, s, e.writer);
    }
  }

  ghost predicate DestinationIs(s: System, w: nat) {
    Destination in s.fs.entries && s.fs.entries[Destination] == w
  }

  /** After every continuation of a run, a durable destination is still there with the same contents. */
  lemma {:induction false} DurableForever(accept: Validator, s: System, later: seq<Event>)
    requires Invariant(accept, s) && Destination in s.fs.durable
    ensures var s', w := Run(accept, s, later), s.fs.durable[Destination];
            Invariant(accept, s') && Destination in s'.fs.durable && s'.fs.durable[Destination] == w && DestinationIs(s', w)
            && w in s.fs.inodes && w in s'.fs.inodes && s'.fs.inodes[w] == s.fs.inodes[w]
    decreases |later|
  {
    if later == [] {
      assert Complete(accept, s, s.fs.entries[Destination]);
    } else {
      var middle := Run(accept, s, later[..|later| - 1]);
      DurableForever(accept, s, later[..|later| - 1]);
      hide WriterHolds, DestinationHolds, Next;
      NextKeeps(accept, middle, later[|later| - 1]);
      DestinationIsStable(accept, middle, later[|later| - 1]);
    }
  }

  lemma {:induction false} RunsCompose(accept: Validator, s: System, first: seq<Event>, later: seq<Event>)
    ensures Run(accept, s, first + later) == Run(accept, Run(accept, s, first), later)
    decreases |later|
  {
    if later == [] {
      assert first + later == first;
    } else {
      assert (first + later)[..|first + later| - 1] == first + later[..|later| - 1];
      RunsCompose(accept, s, first, later[..|later| - 1]);
    }
  }

  /** Once a publishing writer has returned success, its complete file is the destination after every
      further event, crashes included. */
  lemma SuccessSurvives(accept: Validator, events: seq<Event>, later: seq<Event>, w: nat)
    requires w in Run(accept, INITIAL, events).succeeded
    ensures var s := Run(accept, INITIAL, events);
            w in s.payloads && (s.payloads[w].kind != Verify ==>
              DestinationIs(Run(accept, INITIAL, events + later), w) && Complete(accept, s, w)
              && w in Run(accept, INITIAL, events + later).fs.inodes
              && Run(accept, INITIAL, events + later).fs.inodes[w] == s.fs.inodes[w])
  {
    var s := Run(accept, INITIAL, events);
    RunKeeps(accept, events);
    assert SuccessHolds(s, w);
    DurableForever(accept, s, later);
    RunsCompose(accept, INITIAL, events, later);
    assert Destination in s.fs.entries;
    assert Complete(accept, s, s.fs.entries[Destination]);
  }

  /** Over a whole run, crashes included, at most one publishing writer ever returns success. */
  lemma OneSuccess(accept: Validator, events: seq<Event>, v: nat, w: nat)
    requires var s := Run(accept, INITIAL, events);
             v in s.succeeded && w in s.succeeded && v in s.payloads && w in s.payloads
             && s.payloads[v].kind != Verify && s.payloads[w].kind != Verify
    ensures v == w
  {
    var s := Run(accept, INITIAL, events);
    RunKeeps(accept, events);
    assert SuccessHolds(s, v) && SuccessHolds(s, w);
  }

  // ---------- the program itself ----------

  /** The directory after the first n calls of a publication: restrict, sync, link, unlink, sync the directory. */
  function PublishedUpTo(fs: FileSystem, w: nat, n: nat): FileSystem
    requires n <= 5
  {
    if n == 0 then fs
    else
      var before := PublishedUpTo(fs, w, n - 1);
      match n
      case 1 => Restrict(before, w)
      case 2 => SyncFile(before, w)
      case 3 => Link(before, w)
      case 4 => Unlink(before, w)
      case _ => SyncDirectory(before)
  }

  /** The final directory of an undisturbed, successful publication. */
  function Published(fs: FileSystem, w: nat): FileSystem { PublishedUpTo(fs, w, 5) }

  /** What a completed publication of these bytes by w makes of the file system. */
  function Installed(fs: FileSystem, w: nat, contents: Bytes): FileSystem {
    var entries := fs.entries[Destination := w] - {Private(w)};
    FileSystem(fs.inodes[w := Inode(File(contents, true), File(contents, true))], entries, entries)
  }

  /** The five calls leave the source's bytes restricted and synced under the destination's name, the private name gone, and every
      entry durable. */
  lemma PublishedIsInstalled(fs: FileSystem, w: nat)
    requires w in fs.inodes
    ensures Published(fs, w) == Installed(fs, w, fs.inodes[w].cache.bytes)
  {
    PublicationCalls(fs, w);
    assert Published(fs, w).inodes == Installed(fs, w, fs.inodes[w].cache.bytes).inodes;
  }

  /** The directory after the first n calls of a verification of inode i. */
  function VerifiedUpTo(fs: FileSystem, i: nat, n: nat): FileSystem
    requires n <= 3
  {
    if n == 0 then fs
    else
      var before := VerifiedUpTo(fs, i, n - 1);
      match n
      case 1 => Restrict(before, i)
      case 2 => SyncFile(before, i)
      case _ => SyncDirectory(before)
  }

  /** Which calls raise. */
  type Faults = nat -> bool

  /** The first k of n calls completed, and the next one raised if any is left. */
  predicate CallsMade(fails: Faults, k: nat, n: nat) { k <= n && (forall j :: 0 <= j < k ==> !fails(j)) && (k < n ==> fails(k)) }

  lemma PublicationCalls(fs: FileSystem, w: nat)
    ensures PublishedUpTo(fs, w, 0) == fs
    ensures PublishedUpTo(fs, w, 1) == Restrict(fs, w) && PublishedUpTo(fs, w, 2) == SyncFile(PublishedUpTo(fs, w, 1), w)
    ensures PublishedUpTo(fs, w, 3) == Link(PublishedUpTo(fs, w, 2), w) && PublishedUpTo(fs, w, 4) == Unlink(PublishedUpTo(fs, w, 3), w)
    ensures PublishedUpTo(fs, w, 5) == SyncDirectory(PublishedUpTo(fs, w, 4))
    ensures PublishedUpTo(fs, w, 2).entries == fs.entries
  {
  }

  lemma VerificationCalls(fs: FileSystem, i: nat)
    ensures VerifiedUpTo(fs, i, 0) == fs && VerifiedUpTo(fs, i, 1) == Restrict(fs, i)
    ensures VerifiedUpTo(fs, i, 2) == SyncFile(VerifiedUpTo(fs, i, 1), i) && VerifiedUpTo(fs, i, 3) == SyncDirectory(VerifiedUpTo(fs, i, 2))
  {
  }

  predicate Publishable(accept: Validator, fs: FileSystem, w: nat) {
    Private(w) in fs.entries && w in fs.inodes && Destination !in fs.entries && accept(fs.inodes[w].cache.bytes)
  }

  class Directory {
    var fs: FileSystem

    constructor (fs: FileSystem)
      ensures this.fs == fs
    {
      this.fs := fs;
    }

    /** persist_receipt: check, validate, restrict, sync, link, unlink, sync the directory; nothing undoes a call that completed
        before one that raises. */
    method PersistReceipt(accept: Validator, source: nat, fails: Faults) returns (ok: bool, ghost calls: nat)
      modifies this
      ensures Publishable(accept, old(fs), source) ==>
                CallsMade(fails, calls, 5) && fs == PublishedUpTo(old(fs), source, calls) && (ok <==> calls == 5)
      ensures !Publishable(accept, old(fs), source) ==> !ok && fs == old(fs)
      ensures ok ==> !fails(0) && !fails(1) && !fails(2) && !fails(3) && !fails(4)
    {
      hide CallsMade, PublishedUpTo;
      if Private(source) !in fs.entries || source !in fs.inodes {
        return false, 0;
      }
      if Destination in fs.entries {
        return false, 0;
      }
      if !accept(fs.inodes[source].cache.bytes) {
        return false, 0;
      }
      var prepared;
      prepared, calls := Prepare(source, fails);
      if !prepared {
        return false, calls;
      }
      ok, calls := Install(old(fs), source, fails);
    }

    /** Restrict and sync the private file. */
    method Prepare(source: nat, fails: Faults) returns (ok: bool, ghost calls: nat)
      modifies this
      ensures CallsMade(fails, calls, if ok then 2 else 5) && (ok <==> calls == 2 && !fails(1)) && calls <= 2
      ensures ok ==> !fails(0)
      ensures fs == PublishedUpTo(old(fs), source, calls) && fs.entries == old(fs).entries
    {
      PublicationCalls(fs, source);
      hide PublishedUpTo, SyncFile;
      if fails(0) { return false, 0; }
      fs := Restrict(fs, source);
      if fails(1) { return false, 1; }
      fs := SyncFile(fs, source);
      return true, 2;
    }

    /** Link, unlink and sync the directory. */
    method Install(ghost before: FileSystem, source: nat, fails: Faults) returns (ok: bool, ghost calls: nat)
      requires fs == PublishedUpTo(before, source, 2) && Destination !in fs.entries && !fails(0) && !fails(1)
      modifies this
      ensures CallsMade(fails, calls, 5) && fs == PublishedUpTo(before, source, calls) && (ok <==> calls == 5)
      ensures ok ==> !fails(2) && !fails(3) && !fails(4)
    {
      PublicationCalls(before, source);
      hide PublishedUpTo, Link, Unlink, SyncDirectory;
      if fails(2) || Destination in fs.entries { return false, 2; }
      fs := Link(fs, source);
      if fails(3) { return false, 3; }
      fs := Unlink(fs, source);
      if fails(4) { return false, 4; }
      fs := SyncDirectory(fs);
      return true, 5;
    }

    /** verify_existing_receipt: validate and sync the installed receipt, then its directory. */
    method VerifyExisting(accept: Validator, fails: Faults) returns (ok: bool, ghost calls: nat)
      requires Destination in fs.entries ==> fs.entries[Destination] in fs.inodes
      modifies this
      ensures if Destination in old(fs).entries && accept(old(fs).inodes[old(fs).entries[Destination]].cache.bytes) then
                CallsMade(fails, calls, 3) && fs == VerifiedUpTo(old(fs), old(fs).entries[Destination], calls) && (ok <==> calls == 3)
              else !ok && fs == old(fs)
      ensures ok ==> !fails(0) && !fails(1) && !fails(2)
    {
      calls := 0;
      ok := false;
      if Destination !in fs.entries || !accept(fs.inodes[fs.entries[Destination]].cache.bytes) {
        return;
      }
      var installed := fs.entries[Destination];
      VerificationCalls(fs, installed);
      hide VerifiedUpTo, Restrict, SyncFile, SyncDirectory;
      if fails(0) { return; }
      fs, calls := Restrict(fs, installed), 1;
      if fails(1) { return; }
      fs, calls := SyncFile(fs, installed), 2;
      if fails(2) { return; }
      fs, calls := SyncDirectory(fs), 3;
      ok := true;
    }
  }

  /** n consecutive steps of one writer. */
  function Solo(accept: Validator, s: System, w: nat, n: nat): System
    requires w in s.writers
    ensures w in Solo(accept, s, w, n).writers
  {
    if n == 0 then s else Acted(accept, Solo(accept, s, w, n - 1), w)
  }

  lemma {:induction false} SoloIsRun(accept: Validator, s: System, w: nat, n: nat)
    requires w in s.writers
    ensures Run(accept, s, seq(n, _ => Act(w))) == Solo(accept, s, w, n)
  {
    if n > 0 {
      SoloIsRun(accept, s, w, n - 1);
      assert seq(n, _ => Act(w))[..n - 1] == seq(n - 1, _ => Act(w));
    }
  }

  /** A snapshot of a lone persisting writer. */
  function Snapshot(s: System, w: nat, fs: FileSystem, contents: Bytes, step: Step): System {
    s.(fs := fs, writers := s.writers[w := Writer(Persist, step, contents, 0)])
  }

  lemma SnapshotSteps(s: System, w: nat, fs: FileSystem, contents: Bytes, step: Step, next: Step)
    ensures WithStep(Snapshot(s, w, fs, contents, step), w, next) == Snapshot(s, w, fs, contents, next)
  {
    assert s.writers[w := Writer(Persist, step, contents, 0)][w := Writer(Persist, next, contents, 0)]
        == s.writers[w := Writer(Persist, next, contents, 0)];
  }

  function StepAfter(n: nat): Step {
    match n
    case 0 => RestrictFile
    case 1 => SyncContents
    case 2 => LinkDestination
    case 3 => UnlinkPrivate
    case 4 => SyncParent
    case _ => Returned
  }

  /** Two checks, then one call of the program at a time. */
  lemma FirstHalf(accept: Validator, s: System, w: nat, fs: FileSystem, contents: Bytes, n: nat)
    requires Destination !in fs.entries && w in fs.inodes && fs.inodes[w].cache.bytes == contents && accept(contents) && n <= 2
    ensures Solo(accept, Snapshot(s, w, fs, contents, CheckAbsent), w, n + 2)
         == Snapshot(s, w, PublishedUpTo(fs, w, n), contents, StepAfter(n))
  {
    var s0 := Snapshot(s, w, fs, contents, CheckAbsent);
    SnapshotSteps(s, w, fs, contents, CheckAbsent, LoadAndValidate);
    SnapshotSteps(s, w, fs, contents, LoadAndValidate, RestrictFile);
    assert Solo(accept, s0, w, 1) == Snapshot(s, w, fs, contents, LoadAndValidate);
    assert Solo(accept, s0, w, 2) == Snapshot(s, w, fs, contents, RestrictFile);
    if n >= 1 {
      SnapshotSteps(s, w, Restrict(fs, w), contents, RestrictFile, SyncContents);
      assert Solo(accept, s0, w, 3) == Snapshot(s, w, Restrict(fs, w), contents, SyncContents);
    }
    if n == 2 {
      SnapshotSteps(s, w, SyncFile(Restrict(fs, w), w), contents, SyncContents, LinkDestination);
    }
  }

  lemma SecondHalf(accept: Validator, s: System, w: nat, fs: FileSystem, contents: Bytes, n: nat)
    requires Destination !in fs.entries && 1 <= n <= 3
    ensures var end := Solo(accept, Snapshot(s, w, fs, contents, LinkDestination), w, n);
            && (n == 1 ==> end.fs == Link(fs, w)) && (n == 2 ==> end.fs == Unlink(Link(fs, w), w))
            && (n == 3 ==> end.fs == SyncDirectory(Unlink(Link(fs, w), w)) && w in end.succeeded)
  {
    var s0 := Snapshot(s, w, fs, contents, LinkDestination);
    var t := s.(created := s.created + {w});
    SnapshotSteps(t, w, Link(fs, w), contents, LinkDestination, UnlinkPrivate);
    assert Solo(accept, s0, w, 1) == Snapshot(t, w, Link(fs, w), contents, UnlinkPrivate);
    if n >= 2 {
      SnapshotSteps(t, w, Unlink(Link(fs, w), w), contents, UnlinkPrivate, SyncParent);
      assert Solo(accept, s0, w, 2) == Snapshot(t, w, Unlink(Link(fs, w), w), contents, SyncParent);
    }
    if n == 3 {
      var u := t.(succeeded := s.succeeded + {w});
      SnapshotSteps(u, w, SyncDirectory(Unlink(Link(fs, w), w)), contents, SyncParent, Returned);
    }
  }

  lemma {:induction false} SoloComposes(accept: Validator, s: System, w: nat, m: nat, n: nat)
    requires w in s.writers
    ensures Solo(accept, s, w, m + n) == Solo(accept, Solo(accept, s, w, m), w, n)
  {
    hide Acted;
    if n > 0 {
      SoloComposes(accept, s, w, m, n - 1);
    }
  }

  /** Run alone, the state machine's writer is after n calls exactly where the program is, and after five reports success. */
  lemma MachineRunsProgram(accept: Validator, s: System, w: nat, contents: Bytes, n: nat)
    requires Invariant(accept, s) && w !in s.used && Destination !in s.fs.entries && accept(contents) && n <= 5
    ensures var s0 := Started(s, w, Persist, contents);
            var end := Run(accept, s0, seq(n + 2, _ => Act(w)));
            end.fs == PublishedUpTo(s0.fs, w, n) && (n == 5 ==> w in end.succeeded)
  {
    hide *;
    var s0 := Started(s, w, Persist, contents);
    var s1 := s0.(writers := s.writers);
    StartedIsSnapshot(accept, s, w, contents);
    var k := if n < 2 then n else 2;
    FirstHalf(accept, s1, w, s0.fs, contents, k);
    if n > 2 {
      PublicationCalls(s0.fs, w);
      SecondHalf(accept, s1, w, PublishedUpTo(s0.fs, w, 2), contents, n - 2);
      SoloComposes(accept, s0, w, 4, n - 2);
      LinkIsNext();
    } else {
      SnapshotIs(s1, w, PublishedUpTo(s0.fs, w, n), contents, StepAfter(n));
    }
    SoloIsRun(accept, s0, w, n + 2);
  }

  lemma LinkIsNext()
    ensures StepAfter(2) == LinkDestination
  {
  }

  lemma SnapshotIs(s: System, w: nat, fs: FileSystem, contents: Bytes, step: Step)
    ensures Snapshot(s, w, fs, contents, step).fs == fs
  {
  }

  lemma StartedIsSnapshot(accept: Validator, s: System, w: nat, contents: Bytes)
    requires Invariant(accept, s) && w !in s.used && Destination !in s.fs.entries
    ensures var s0 := Started(s, w, Persist, contents);
            && s0 == Snapshot(s0.(writers := s.writers), w, s0.fs, contents, CheckAbsent) && w in s0.writers
            && Destination !in s0.fs.entries && w in s0.fs.inodes && s0.fs.inodes[w].cache.bytes == contents
  {
  }

  // ---------- the attester and the verifier, run alone ----------

  /** Writer w stands like this, over this file system. */
  function Placed(s: System, w: nat, fs: FileSystem, writer: Writer): System { s.(fs := fs, writers := s.writers[w := writer]) }

  lemma PlacedAgain(s: System, w: nat, fs: FileSystem, writer: Writer, fs': FileSystem, next: Writer)
    ensures Placed(Placed(s, w, fs, writer), w, fs', next) == Placed(s, w, fs', next)
    ensures w in Placed(s, w, fs, writer).writers && Placed(s, w, fs, writer).writers[w] == writer
  {
    assert s.writers[w := writer][w := next] == s.writers[w := next];
  }

  /** The temporary file with its first k bytes written. */
  function WrittenUpTo(fs: FileSystem, w: nat, contents: Bytes, k: nat): FileSystem
    requires k <= |contents|
  {
    fs.(inodes := fs.inodes[w := Inode(File(contents[..k], true), File([], false))], entries := fs.entries[Private(w) := w])
  }

  /** The writes of an attester, in pieces of any sizes. */
  function Writes(w: nat, pieces: seq<nat>): seq<Event> { seq(|pieces|, i requires 0 <= i < |pieces| => WriteSome(w, pieces[i])) }

  function Sum(pieces: seq<nat>): nat { if pieces == [] then 0 else Sum(pieces[..|pieces| - 1]) + pieces[|pieces| - 1] }

  lemma RunAppends(accept: Validator, s: System, events: seq<Event>, e: Event)
    ensures Run(accept, s, events + [e]) == Next(accept, Run(accept, s, events), e)
  {
    assert (events + [e])[..|events + [e]| - 1] == events;
  }

  lemma AttesterBegins(accept: Validator, s: System, w: nat, fs: FileSystem, contents: Bytes)
    requires Destination !in fs.entries
    ensures var s0 := Placed(s, w, fs, Writer(Attest, CheckAbsent, contents, 0));
            var s1 := Placed(s, w, fs, Writer(Attest, CreateTemporary, contents, 0));
            var s2 := Placed(s, w, Create(fs, w, File([], false)), Writer(Attest, RestrictFile, contents, 0));
            w in s0.writers && Acted(accept, s0, w) == s1 && w in s1.writers && Acted(accept, s1, w) == s2 && w in s2.writers
            && Acted(accept, s2, w) == Placed(s, w, Restrict(Create(fs, w, File([], false)), w), Writer(Attest, WriteContents, contents, 0))
  {
    hide Create, Restrict;
    Replaced(s.writers, w, Writer(Attest, CheckAbsent, contents, 0), Writer(Attest, CreateTemporary, contents, 0));
    Replaced(s.writers, w, Writer(Attest, CreateTemporary, contents, 0), Writer(Attest, RestrictFile, contents, 0));
    Replaced(s.writers, w, Writer(Attest, RestrictFile, contents, 0), Writer(Attest, WriteContents, contents, 0));
  }

  lemma AttesterStarts(accept: Validator, s: System, w: nat, fs: FileSystem, contents: Bytes)
    requires Destination !in fs.entries
    ensures var s0 := Placed(s, w, fs, Writer(Attest, CheckAbsent, contents, 0));
            w in s0.writers
            && Solo(accept, s0, w, 3) == Placed(s, w, WrittenUpTo(fs, w, contents, 0), Writer(Attest, WriteContents, contents, 0))
  {
    assert contents[..0] == [];
    assert Restrict(Create(fs, w, File([], false)), w).inodes == WrittenUpTo(fs, w, contents, 0).inodes;
    var s0 := Placed(s, w, fs, Writer(Attest, CheckAbsent, contents, 0));
    AttesterBegins(accept, s, w, fs, contents);
    hide Placed, Acted, Create, Restrict, WrittenUpTo, Solo;
    SoloSteps(accept, s0, w, 0);
    SoloSteps(accept, s0, w, 1);
    SoloSteps(accept, s0, w, 2);
  }

  lemma {:induction false} AttesterWrites(accept: Validator, s: System, w: nat, fs: FileSystem, contents: Bytes, pieces: seq<nat>)
    requires Sum(pieces) <= |contents|
    ensures Run(accept, Placed(s, w, WrittenUpTo(fs, w, contents, 0), Writer(Attest, WriteContents, contents, 0)), Writes(w, pieces))
         == Placed(s, w, WrittenUpTo(fs, w, contents, Sum(pieces)), Writer(Attest, WriteContents, contents, Sum(pieces)))
    decreases |pieces|
  {
    var s0 := Placed(s, w, WrittenUpTo(fs, w, contents, 0), Writer(Attest, WriteContents, contents, 0));
    if pieces != [] {
      var before, n := pieces[..|pieces| - 1], pieces[|pieces| - 1];
      AttesterWrites(accept, s, w, fs, contents, before);
      assert Writes(w, pieces) == Writes(w, before) + [WriteSome(w, n)];
      hide Run, WroteSome, WrittenUpTo, Placed, Writes;
      RunAppends(accept, s0, Writes(w, before), WriteSome(w, n));
      PieceIsWritten(s, w, fs, contents, Sum(before), n);
    } else {
      assert Writes(w, pieces) == [];
    }
  }

  lemma PieceIsWritten(s: System, w: nat, fs: FileSystem, contents: Bytes, k: nat, n: nat)
    requires k + n <= |contents|
    ensures w in Placed(s, w, WrittenUpTo(fs, w, contents, k), Writer(Attest, WriteContents, contents, k)).writers
    ensures WroteSome(Placed(s, w, WrittenUpTo(fs, w, contents, k), Writer(Attest, WriteContents, contents, k)), w, n)
         == Placed(s, w, WrittenUpTo(fs, w, contents, k + n), Writer(Attest, WriteContents, contents, k + n))
  {
    var before, after := WrittenUpTo(fs, w, contents, k), WrittenUpTo(fs, w, contents, k + n);
    assert contents[..k] + contents[k..k + n] == contents[..k + n];
    assert Append(before, w, contents[k..k + n]).inodes == after.inodes;
    PlacedAgain(s, w, before, Writer(Attest, WriteContents, contents, k), after, Writer(Attest, WriteContents, contents, k + n));
  }

  lemma Replaced(writers: map<nat, Writer>, w: nat, a: Writer, b: Writer)
    ensures writers[w := a][w := b] == writers[w := b]
  {
  }

  /** The order of an attester's calls once its contents are written. */
  function StepFollowing(step: Step): Step {
    match step
    case WriteContents => SyncContents
    case SyncContents => LinkDestination
    case LinkDestination => UnlinkPrivate
    case UnlinkPrivate => SyncParent
    case SyncParent => CleanUp(true)
    case _ => Returned
  }

  /** One call of an attester once its contents are written. */
  lemma AttesterActs(accept: Validator, s: System, w: nat, fs: FileSystem, contents: Bytes, step: Step)
    requires step in {WriteContents, SyncContents, LinkDestination, UnlinkPrivate, SyncParent, CleanUp(true)}
    requires step == LinkDestination ==> Destination !in fs.entries
    ensures var k := |contents|;
            var before := Placed(s, w, fs, Writer(Attest, step, contents, k));
            var t := s.(created := s.created + {w});
            var u := s.(succeeded := s.succeeded + {w});
            w in before.writers && Acted(accept, before, w) ==
              var next := Writer(Attest, StepFollowing(step), contents, k);
              match step
              case WriteContents => Placed(s, w, fs, next)
              case SyncContents => Placed(s, w, SyncFile(fs, w), next)
              case LinkDestination => Placed(t, w, Link(fs, w), next)
              case UnlinkPrivate => Placed(s, w, Unlink(fs, w), next)
              case SyncParent => Placed(s, w, SyncDirectory(fs), next)
              case _ => Placed(u, w, Unlink(fs, w), next)
  {
    hide SyncFile, Link, Unlink, SyncDirectory;
    var writer := Writer(Attest, step, contents, |contents|);
    Replaced(s.writers, w, writer, writer.(step := StepFollowing(step)));
  }

  lemma SoloSteps(accept: Validator, s: System, w: nat, n: nat)
    requires w in s.writers
    ensures Solo(accept, s, w, 0) == s && Solo(accept, s, w, n + 1) == Acted(accept, Solo(accept, s, w, n), w)
  {
    hide Acted;
  }

  lemma AttesterLinks(accept: Validator, s: System, w: nat, fs: FileSystem, contents: Bytes)
    requires Destination !in fs.entries
    ensures var s0 := Placed(s, w, fs, Writer(Attest, WriteContents, contents, |contents|));
            w in s0.writers && Solo(accept, s0, w, 3)
              == Placed(s.(created := s.created + {w}), w, Link(SyncFile(fs, w), w), Writer(Attest, UnlinkPrivate, contents, |contents|))
  {
    var s0 := Placed(s, w, fs, Writer(Attest, WriteContents, contents, |contents|));
    assert Destination !in SyncFile(fs, w).entries;
    FollowingSteps();
    hide *;
    AttesterActs(accept, s, w, fs, contents, WriteContents);
    AttesterActs(accept, s, w, fs, contents, SyncContents);
    AttesterActs(accept, s, w, SyncFile(fs, w), contents, LinkDestination);
    SoloSteps(accept, s0, w, 0);
    SoloSteps(accept, s0, w, 1);
    SoloSteps(accept, s0, w, 2);
  }

  lemma FollowingSteps()
    ensures StepFollowing(WriteContents) == SyncContents && StepFollowing(SyncContents) == LinkDestination
    ensures StepFollowing(LinkDestination) == UnlinkPrivate && StepFollowing(UnlinkPrivate) == SyncParent
    ensures StepFollowing(SyncParent) == CleanUp(true) && StepFollowing(CleanUp(true)) == Returned
  {
  }

  lemma AttesterCleansUp(accept: Validator, s: System, w: nat, fs: FileSystem, contents: Bytes)
    ensures var s0 := Placed(s, w, fs, Writer(Attest, UnlinkPrivate, contents, |contents|));
            w in s0.writers && Solo(accept, s0, w, 3)
              == Placed(s.(succeeded := s.succeeded + {w}), w, Unlink(SyncDirectory(Unlink(fs, w)), w),
                        Writer(Attest, Returned, contents, |contents|))
  {
    var s0 := Placed(s, w, fs, Writer(Attest, UnlinkPrivate, contents, |contents|));
    FollowingSteps();
    hide *;
    AttesterActs(accept, s, w, fs, contents, UnlinkPrivate);
    AttesterActs(accept, s, w, Unlink(fs, w), contents, SyncParent);
    AttesterActs(accept, s, w, SyncDirectory(Unlink(fs, w)), contents, CleanUp(true));
    SoloSteps(accept, s0, w, 0);
    SoloSteps(accept, s0, w, 1);
    SoloSteps(accept, s0, w, 2);
  }

  lemma AttesterFinishes(accept: Validator, s: System, w: nat, fs: FileSystem, contents: Bytes)
    requires Destination !in fs.entries
    ensures var s0 := Placed(s, w, WrittenUpTo(fs, w, contents, |contents|), Writer(Attest, WriteContents, contents, |contents|));
            var end := s.(created := s.created + {w}, succeeded := s.succeeded + {w});
            w in s0.writers && Solo(accept, s0, w, 6) == Placed(end, w, Installed(fs, w, contents), Writer(Attest, Returned, contents, |contents|))
  {
    var f0 := WrittenUpTo(fs, w, contents, |contents|);
    var s0 := Placed(s, w, f0, Writer(Attest, WriteContents, contents, |contents|));
    hide *;
    WrittenElsewhere(fs, w, contents, |contents|);
    AttesterLinks(accept, s, w, f0, contents);
    AttesterCleansUp(accept, s.(created := s.created + {w}), w, Link(SyncFile(f0, w), w), contents);
    SoloComposes(accept, s0, w, 3, 3);
    LinkedIsInstalled(fs, w, contents);
  }

  lemma WrittenElsewhere(fs: FileSystem, w: nat, contents: Bytes, k: nat)
    requires k <= |contents| && Destination !in fs.entries
    ensures Destination !in WrittenUpTo(fs, w, contents, k).entries
  {
  }

  lemma LinkedIsInstalled(fs: FileSystem, w: nat, contents: Bytes)
    ensures var linked := Link(SyncFile(WrittenUpTo(fs, w, contents, |contents|), w), w);
            Unlink(SyncDirectory(Unlink(linked, w)), w) == Installed(fs, w, contents)
  {
    var k := |contents|;
    assert contents[..k] == contents;
    var f1 := SyncFile(WrittenUpTo(fs, w, contents, k), w);
    assert f1.inodes == Installed(fs, w, contents).inodes;
    var f3 := Unlink(Link(f1, w), w);
    assert f3.entries == Installed(fs, w, contents).entries;
    assert f3.entries - {Private(w)} == f3.entries;
  }

  /** An attester with the directory to itself publishes: whatever the sizes of its writes, it ends with success, its own complete,
      restricted and synced file as the destination, the entry durable, and its temporary name gone. */
  lemma AttesterPublishes(accept: Validator, s: System, w: nat, contents: Bytes, pieces: seq<nat>)
    requires Invariant(accept, s) && w !in s.used && Destination !in s.fs.entries && Sum(pieces) == |contents|
    ensures var s0 := Started(s, w, Attest, contents);
            var end := Run(accept, s0, seq(3, _ => Act(w)) + Writes(w, pieces) + seq(6, _ => Act(w)));
            && end.fs == Installed(s.fs, w, contents) && w in end.succeeded && w in end.created
            && w in end.writers && end.writers[w].step == Returned
  {
    var s0 := Started(s, w, Attest, contents);
    var start := s0.(writers := s.writers);
    var a, b, c := seq(3, _ => Act(w)), Writes(w, pieces), seq(6, _ => Act(w));
    var k := |contents|;
    var written := Placed(start, w, WrittenUpTo(s.fs, w, contents, k), Writer(Attest, WriteContents, contents, k));
    var done := start.(created := start.created + {w}, succeeded := start.succeeded + {w});
    assert s0 == Placed(start, w, s.fs, Writer(Attest, CheckAbsent, contents, 0)) && w in s0.writers;
    hide *;
    AttesterStarts(accept, start, w, s.fs, contents);
    SoloIsRun(accept, s0, w, 3);
    AttesterWrites(accept, start, w, s.fs, contents, pieces);
    AttesterFinishes(accept, start, w, s.fs, contents);
    RunsCompose(accept, s0, a, b);
    RunsCompose(accept, s0, a + b, c);
    SoloIsRun(accept, written, w, 6);
    PlacedIs(done, w, Installed(s.fs, w, contents), Writer(Attest, Returned, contents, k));
  }

  lemma PlacedIs(s: System, w: nat, fs: FileSystem, writer: Writer)
    ensures var p := Placed(s, w, fs, writer);
            p.fs == fs && w in p.writers && p.writers[w] == writer && p.created == s.created && p.succeeded == s.succeeded
  {
  }

  /** Whatever call of an attester raises between making its temporary file and returning, its cleanup removes the temporary name and
      nothing else: no file, no other name and nothing durable changes, and it reports failure. A destination it had already linked
      stays. This holds in every state, whatever the other writers do. */
  lemma AttesterFailsCleanly(accept: Validator, s: System, w: nat)
    requires w in s.writers && s.writers[w].kind == Attest
    requires s.writers[w].step in {RestrictFile, WriteContents, SyncContents, LinkDestination, UnlinkPrivate, SyncParent}
    ensures var end := Run(accept, s, [CallFails(w), Act(w)]);
            && end.fs == s.fs.(entries := s.fs.entries - {Private(w)}) && w in end.writers && end.writers[w].step == Failed
            && end.succeeded == s.succeeded && end.created == s.created
  {
    RunOfTwo(accept, s, CallFails(w), Act(w));
  }

  lemma RunOfTwo(accept: Validator, s: System, d: Event, e: Event)
    ensures Run(accept, s, [d, e]) == Next(accept, Next(accept, s, d), e)
  {
    assert [d, e][..1] == [d] && [d][..0] == [];
    assert Run(accept, s, [d]) == Next(accept, Run(accept, s, []), d);
  }

  /** A writer that finds the destination taken gives up: a publisher at its check leaves everything as it is, an attester that
      loses the race at its link removes its temporary name. */
  lemma TakenDestinationIsRefused(accept: Validator, s: System, w: nat)
    requires w in s.writers && Destination in s.fs.entries
    ensures s.writers[w].step == CheckAbsent ==> Next(accept, s, Act(w)) == WithStep(s, w, Failed)
    ensures s.writers[w].step == LinkDestination && s.writers[w].kind != Attest ==> Next(accept, s, Act(w)) == WithStep(s, w, Failed)
    ensures s.writers[w].step == LinkDestination && s.writers[w].kind == Attest ==>
              var end := Run(accept, s, [Act(w), Act(w)]);
              && end.fs == s.fs.(entries := s.fs.entries - {Private(w)}) && w in end.writers && end.writers[w].step == Failed
              && end.succeeded == s.succeeded && end.created == s.created
  {
    RunOfTwo(accept, s, Act(w), Act(w));
  }

  function VerifierStep(n: nat): Step {
    match n
    case 0 => LoadAndValidate
    case 1 => RestrictFile
    case 2 => SyncContents
    case 3 => SyncParent
    case _ => Returned
  }

  lemma VerifierActs(accept: Validator, s: System, w: nat, fs: FileSystem, n: nat)
    requires Destination in fs.entries && fs.entries[Destination] in fs.inodes && n <= 3
    requires n == 0 ==> accept(fs.inodes[fs.entries[Destination]].cache.bytes)
    ensures var i := fs.entries[Destination];
            var before := Placed(s, w, fs, Writer(Verify, VerifierStep(n), [], 0));
            var u := s.(succeeded := s.succeeded + {w});
            w in before.writers && Acted(accept, before, w) ==
              var next := Writer(Verify, VerifierStep(n + 1), [], 0);
              match n
              case 0 => Placed(s, w, fs, next)
              case 1 => Placed(s, w, Restrict(fs, i), next)
              case 2 => Placed(s, w, SyncFile(fs, i), next)
              case _ => Placed(u, w, SyncDirectory(fs), next)
  {
    hide Restrict, SyncFile, SyncDirectory;
    Replaced(s.writers, w, Writer(Verify, VerifierStep(n), [], 0), Writer(Verify, VerifierStep(n + 1), [], 0));
  }

  lemma {:induction false} VerifierReaches(accept: Validator, s: System, w: nat, fs: FileSystem, n: nat)
    requires Destination in fs.entries && fs.entries[Destination] in fs.inodes && n <= 3
    requires accept(fs.inodes[fs.entries[Destination]].cache.bytes)
    ensures var s0 := Placed(s, w, fs, Writer(Verify, LoadAndValidate, [], 0));
            w in s0.writers && Solo(accept, s0, w, n + 1)
              == Placed(if n == 3 then s.(succeeded := s.succeeded + {w}) else s, w, VerifiedUpTo(fs, fs.entries[Destination], n),
                        Writer(Verify, VerifierStep(n + 1), [], 0))
  {
    var i, s0 := fs.entries[Destination], Placed(s, w, fs, Writer(Verify, LoadAndValidate, [], 0));
    VerificationCalls(fs, i);
    if n == 0 {
      assert VerifierStep(0) == LoadAndValidate;
      hide *;
      VerifierActs(accept, s, w, fs, 0);
      SoloSteps(accept, s0, w, 0);
    } else {
      assert VerifiedUpTo(fs, i, n - 1).entries == fs.entries && i in VerifiedUpTo(fs, i, n - 1).inodes;
      hide *;
      VerifierReaches(accept, s, w, fs, n - 1);
      VerifierActs(accept, s, w, VerifiedUpTo(fs, i, n - 1), n);
      SoloSteps(accept, s0, w, n);
    }
  }

  /** A verifier alone accepts an installed receipt the validator accepts: after n further calls it is where the program is, and in
      the end the file is restricted and synced and its name durable. */
  lemma VerifierAccepts(accept: Validator, s: System, w: nat, n: nat)
    requires Invariant(accept, s) && w !in s.used && Destination in s.fs.entries && n <= 3
    requires accept(s.fs.inodes[s.fs.entries[Destination]].cache.bytes)
    ensures var i := s.fs.entries[Destination];
            var end := Run(accept, Started(s, w, Verify, []), seq(n + 1, _ => Act(w)));
            end.fs == VerifiedUpTo(s.fs, i, n) && (n == 3 ==> w in end.succeeded)
    ensures var i := s.fs.entries[Destination];
            var bytes := s.fs.inodes[i].cache.bytes;
            VerifiedUpTo(s.fs, i, 3) == FileSystem(s.fs.inodes[i := Inode(File(bytes, true), File(bytes, true))], s.fs.entries, s.fs.entries)
  {
    var s0, i := Started(s, w, Verify, []), s.fs.entries[Destination];
    var start := s0.(writers := s.writers);
    assert s0 == Placed(start, w, s.fs, Writer(Verify, LoadAndValidate, [], 0)) && i in s.fs.inodes;
    VerifiedIs(s.fs, i);
    hide *;
    VerifierReaches(accept, start, w, s.fs, n);
    SoloIsRun(accept, s0, w, n + 1);
    PlacedIs(if n == 3 then start.(succeeded := start.succeeded + {w}) else start, w, VerifiedUpTo(s.fs, i, n), Writer(Verify, VerifierStep(n + 1), [], 0));
  }

  lemma VerifiedIs(fs: FileSystem, i: nat)
    requires i in fs.inodes
    ensures var bytes := fs.inodes[i].cache.bytes;
            VerifiedUpTo(fs, i, 3) == FileSystem(fs.inodes[i := Inode(File(bytes, true), File(bytes, true))], fs.entries, fs.entries)
  {
    VerificationCalls(fs, i);
    var bytes := fs.inodes[i].cache.bytes;
    assert VerifiedUpTo(fs, i, 3).inodes == fs.inodes[i := Inode(File(bytes, true), File(bytes, true))];
  }

  /** A verifier refuses at once when nothing is installed or the validator rejects it. */
  lemma VerifierRefuses(accept: Validator, s: System, w: nat)
    requires Invariant(accept, s) && w !in s.used
    requires Destination in s.fs.entries ==> !accept(s.fs.inodes[s.fs.entries[Destination]].cache.bytes)
    ensures var end := Next(accept, Started(s, w, Verify, []), Act(w));
            end.fs == s.fs && w in end.writers && end.writers[w].step == Failed && end.succeeded == s.succeeded
  {
  }

  // ---------- the kernel and the power ----------

  /** A crash keeps exactly what was written back: names that were durable, contents that were on disk; the writers are gone. */
  lemma CrashKeepsTheWrittenBack(accept: Validator, s: System)
    ensures var t := Next(accept, s, Crash);
            && t.writers == map[] && t.used == s.used && t.succeeded == s.succeeded
            && (forall n :: n in t.fs.entries <==> n in s.fs.durable)
            && (forall n :: n in s.fs.durable ==> t.fs.entries[n] == s.fs.durable[n] && n in t.fs.durable && t.fs.durable[n] == s.fs.durable[n])
            && (forall i :: i in t.fs.inodes <==> i in s.fs.inodes)
            && (forall i :: i in s.fs.inodes ==> t.fs.inodes[i].cache == s.fs.inodes[i].disk && t.fs.inodes[i].disk == s.fs.inodes[i].disk)
  {
  }

  /** The kernel may save any one name at any moment: a crash right after it keeps that name as it stands, and of the others only
      those that were durable before. */
  lemma NameIsSaved(accept: Validator, s: System, n: Name)
    ensures var t := Run(accept, s, [WriteBack(n), Crash]);
            && (n in t.fs.entries <==> n in s.fs.entries) && (n in s.fs.entries ==> t.fs.entries[n] == s.fs.entries[n])
            && forall m :: m != n ==> (m in t.fs.entries <==> m in s.fs.durable)
  {
    var u := Next(accept, s, WriteBack(n));
    RunOfTwo(accept, s, WriteBack(n), Crash);
    CrashKeepsTheWrittenBack(accept, u);
    hide Run, PowerLoss;
  }

  /** Likewise any one file: its contents survive the crash as they are in memory, those of the others as they are on disk. */
  lemma FileIsSaved(accept: Validator, s: System, i: nat)
    requires i in s.fs.inodes
    ensures var t := Run(accept, s, [FlushFile(i), Crash]);
            && i in t.fs.inodes && t.fs.inodes[i].cache == s.fs.inodes[i].cache
            && forall j :: j != i && j in s.fs.inodes ==> j in t.fs.inodes && t.fs.inodes[j].cache == s.fs.inodes[j].disk
  {
    var u := Next(accept, s, FlushFile(i));
    RunOfTwo(accept, s, FlushFile(i), Crash);
    CrashKeepsTheWrittenBack(accept, u);
    hide Run, PowerLoss;
  }

  /** A failing call of the other writers stops them and changes nothing else. */
  lemma FailureStops(accept: Validator, s: System, w: nat)
    requires w in s.writers && s.writers[w].step != Returned
    requires s.writers[w].kind != Attest || s.writers[w].step in {CheckAbsent, CreateTemporary, CleanUp(true), CleanUp(false)}
    ensures var t := Next(accept, s, CallFails(w));
            t.fs == s.fs && w in t.writers && t.writers[w].step == Failed && t.succeeded == s.succeeded && t.created == s.created
  {
  }
}
