/** Pointing the application path at a verified release: the two branches, their cleanup handlers, and an exception or process
    death at every boundary between two effects, inside the handlers too. */
module ReleaseSwitch {

  /** What a path names; directories and link targets are identified by number. */
  datatype Entry = Absent | RealDirectory(id: nat) | Link(target: nat) | Other

  /** The application path, the legacy path, and the temporary link path of each process id. */
  datatype Paths = Paths(app: Entry, legacy: Entry, temporaries: map<nat, Entry>)

  function Temporary(p: Paths, pid: nat): Entry { if pid in p.temporaries then p.temporaries[pid] else Absent }

  /** What happens at one boundary. An exception raised inside a try block still runs its handler; a killed process runs
      nothing more. */
  datatype Fault = Continue | Exception | Killed

  datatype Exit = Completed | Raised | Died

  /** The boundaries in program order: before the own link is placed, between placing it and the try block, at the rename or
      exchange itself, inside the try block after it, in the handler before its removal of the link, and after the block. */
  datatype Boundary = Place | Enter | Rename | Leave | Handler | Afterwards

  type Schedule = Boundary -> Fault

  /** The release is live; an old real directory has moved to the legacy path. */
  ghost predicate Switched(before: Paths, release: nat, after: Paths) {
    after == Paths(Link(release), if before.app.RealDirectory? then before.app else before.legacy, before.temporaries)
  }

  /** The application path is untouched but the switch's own link was left behind. */
  ghost predicate LinkLeft(before: Paths, release: nat, pid: nat, after: Paths) {
    if before.app.RealDirectory? then after == before.(legacy := Link(release))
    else after == before.(temporaries := before.temporaries[pid := Link(release)])
  }

  /** The rename or exchange is reached and succeeds. */
  predicate Renames(fault: Schedule) { fault(Place) == Continue && fault(Enter) == Continue && fault(Rename) == Continue }

  /** The own link is placed and nothing removes it: a fault before the try block, death at the rename, or a failing rename whose
      handler does not reach its removal. */
  predicate LeavesLink(fault: Schedule) {
    && fault(Place) == Continue
    && (fault(Enter) != Continue || fault(Rename) == Killed || (fault(Rename) == Exception && fault(Handler) != Continue))
  }

  /** Nothing goes wrong at any boundary the run reaches; without an exception only the link branch runs a handler. */
  predicate Undisturbed(before: Paths, fault: Schedule) {
    Renames(fault) && fault(Leave) == Continue && (before.app.RealDirectory? || fault(Handler) == Continue) && fault(Afterwards) == Continue
  }

  /** The first fault the run meets is death. */
  predicate Dies(before: Paths, fault: Schedule) {
    if fault(Place) != Continue then fault(Place) == Killed
    else if fault(Enter) != Continue then fault(Enter) == Killed
    else if fault(Rename) != Continue then fault(Rename) == Killed || fault(Handler) == Killed
    else if fault(Leave) != Continue then fault(Leave) == Killed || fault(Handler) == Killed
    else if !before.app.RealDirectory? && fault(Handler) != Continue then fault(Handler) == Killed
    else fault(Afterwards) == Killed
  }

  /** The two promises about every intermediate state. */
  ghost predicate Safe(before: Paths, release: nat, now: Paths) {
    && (now.app == before.app || now.app == Link(release))
    && (before.app.RealDirectory? ==> before.app in {now.app, now.legacy})
  }

  /** Whatever is removed was a link to the release standing where nothing stood before. */
  ghost predicate RemovesOnlyOwnLinks(before: Paths, release: nat, now: Paths, next: Paths) {
    && (now.legacy != Absent && next.legacy == Absent ==> now.legacy == Link(release) && before.legacy == Absent)
    && (forall pid :: Temporary(now, pid) != Absent && Temporary(next, pid) == Absent ==>
          Temporary(now, pid) == Link(release) && Temporary(before, pid) == Absent)
  }

  ghost predicate HistorySafe(before: Paths, release: nat, history: seq<Paths>) {
    && (forall k :: 0 <= k < |history| ==> Safe(before, release, history[k]))
    && (forall k :: 0 <= k < |history| - 1 ==> RemovesOnlyOwnLinks(before, release, history[k], history[k + 1]))
  }

  /** The checks before anything is placed. */
  predicate Switchable(p: Paths, pid: nat) {
    p.legacy == Absent && (if p.app.RealDirectory? then true else (p.app.Link? || p.app.Absent?) && pid !in p.temporaries)
  }

  class Host {
    var app: Entry
    var legacy: Entry
    var temporaries: map<nat, Entry>
    ghost var history: seq<Paths>

    constructor (p: Paths)
      ensures Current() == p && history == [p]
    {
      app, legacy, temporaries := p.app, p.legacy, p.temporaries;
      history := [p];
    }

    function Current(): Paths
      reads this
    {
      Paths(app, legacy, temporaries)
    }

    /** Records a state the paths pass through. */
    ghost method Record(before: Paths, release: nat, was: Paths)
      requires |history| > 0 && history[|history| - 1] == was && HistorySafe(before, release, history)
      requires Safe(before, release, Current()) && RemovesOnlyOwnLinks(before, release, was, Current())
      modifies this`history
      ensures HistorySafe(before, release, history) && |history| > 0 && history[|history| - 1] == Current()
    {
      history := history + [Current()];
    }

    /** The link branch: place a temporary link and rename it over the application path. */
    method ReplaceLink(release: nat, pid: nat, fault: Schedule) returns (proceed: bool, exit: Exit)
      requires history == [Current()] && Switchable(Current(), pid) && !app.RealDirectory?
      modifies this
      ensures HistorySafe(old(Current()), release, history) && |history| > 0 && history[|history| - 1] == Current()
      ensures if Renames(fault) then Switched(old(Current()), release, Current())
              else if LeavesLink(fault) then LinkLeft(old(Current()), release, pid, Current())
              else Current() == old(Current())
      ensures proceed <==> Renames(fault) && fault(Leave) == Continue && fault(Handler) == Continue
      ensures !proceed ==> exit == if Dies(old(Current()), fault) then Died else Raised
    {
      hide HistorySafe;
      ghost var before := Current();
      StartIsSafe(before, release);
      if fault(Place) != Continue {
        return false, if fault(Place) == Killed then Died else Raised;
      }
      temporaries := temporaries[pid := Link(release)];
      Record(before, release, before);
      if fault(Enter) != Continue {
        return false, if fault(Enter) == Killed then Died else Raised;
      }
      // try: os.replace
      if fault(Rename) == Killed {
        return false, Died;
      }
      var raised := fault(Rename) == Exception;
      if !raised {
        ghost var was := Current();
        app, temporaries := temporaries[pid], temporaries - {pid};
        Record(before, release, was);
        if fault(Leave) == Killed {
          return false, Died;
        }
        raised := fault(Leave) == Exception;
      }
      // finally
      if fault(Handler) != Continue {
        return false, if fault(Handler) == Killed then Died else Raised;
      }
      if pid in temporaries {
        ghost var was := Current();
        temporaries := temporaries - {pid};
        Record(before, release, was);
      }
      return !raised, Raised;
    }

    /** The directory branch: place the link at the legacy path and exchange the two. */
    method ExchangeDirectory(release: nat, pid: nat, fault: Schedule) returns (proceed: bool, exit: Exit)
      requires history == [Current()] && Switchable(Current(), pid) && app.RealDirectory?
      modifies this
      ensures HistorySafe(old(Current()), release, history) && |history| > 0 && history[|history| - 1] == Current()
      ensures if Renames(fault) then Switched(old(Current()), release, Current())
              else if LeavesLink(fault) then LinkLeft(old(Current()), release, pid, Current())
              else Current() == old(Current())
      ensures proceed <==> Renames(fault) && fault(Leave) == Continue
      ensures !proceed ==> exit == if Dies(old(Current()), fault) then Died else Raised
    {
      hide HistorySafe;
      ghost var before := Current();
      StartIsSafe(before, release);
      if fault(Place) != Continue {
        return false, if fault(Place) == Killed then Died else Raised;
      }
      legacy := Link(release);
      Record(before, release, before);
      if fault(Enter) != Continue {
        return false, if fault(Enter) == Killed then Died else Raised;
      }
      // try: renameat2(RENAME_EXCHANGE)
      if fault(Rename) == Killed {
        return false, Died;
      }
      var raised := fault(Rename) == Exception;
      if !raised {
        ghost var was := Current();
        legacy, app := app, legacy;
        Record(before, release, was);
        if fault(Leave) == Killed {
          return false, Died;
        }
        raised := fault(Leave) == Exception;
      }
      if raised {
        // except BaseException
        if fault(Handler) != Continue {
          return false, if fault(Handler) == Killed then Died else Raised;
        }
        if legacy.Link? {
          ghost var was := Current();
          legacy := Absent;
          Record(before, release, was);
        }
      }
      return !raised, Raised;
    }

    /** `main`: `history` records every state the paths pass through. */
    method Switch(release: nat, pid: nat, fault: Schedule) returns (exit: Exit)
      requires history == [Current()]
      modifies this
      ensures HistorySafe(old(Current()), release, history) && |history| > 0 && history[|history| - 1] == Current()
      ensures !Switchable(old(Current()), pid) ==> exit == Raised && Current() == old(Current())
      // Three ends, each under its exact condition on the schedule.
      ensures Switchable(old(Current()), pid) ==>
                if Renames(fault) then Switched(old(Current()), release, Current())
                else if LeavesLink(fault) then LinkLeft(old(Current()), release, pid, Current())
                else Current() == old(Current())
      // Three exits, likewise.
      ensures Switchable(old(Current()), pid) ==>
                exit == if Undisturbed(old(Current()), fault) then Completed else if Dies(old(Current()), fault) then Died else Raised
    {
      hide HistorySafe;
      StartIsSafe(Current(), release);
      if legacy != Absent {
        return Raised;
      }
      var proceed: bool;
      if app.Link? || app.Absent? {
        if pid in temporaries {
          return Raised;
        }
        proceed, exit := ReplaceLink(release, pid, fault);
      } else {
        if !app.RealDirectory? {
          return Raised;
        }
        proceed, exit := ExchangeDirectory(release, pid, fault);
      }
      if !proceed {
        return exit;
      }
      if fault(Afterwards) != Continue {
        return if fault(Afterwards) == Killed then Died else Raised;
      }
      if app != Link(release) {
        return Raised;
      }
      exit := Completed;
    }
  }

  lemma StartIsSafe(before: Paths, release: nat)
    ensures HistorySafe(before, release, [before])
  {
  }

  /** The three ends of a run are different states whenever the link is new. */
  lemma EndsDiffer(before: Paths, release: nat, pid: nat, after: Paths)
    requires Switchable(before, pid) && LinkLeft(before, release, pid, after)
    ensures after != before && !Switched(before, release, after)
  {
    if !before.app.RealDirectory? {
      assert pid in after.temporaries && pid !in before.temporaries;
    }
  }

  /** Cleanup is not guaranteed: an exception in the handler of a failed exchange leaves the link at the legacy path, although
      the guarded block was entered without a fault. */
  method HandlerFaultLeavesLink(directory: nat, release: nat) returns (host: Host, exit: Exit)
    ensures exit == Raised && host.Current() == Paths(RealDirectory(directory), Link(release), map[])
  {
    host := new Host(Paths(RealDirectory(directory), Absent, map[]));
    var schedule: Schedule := b => if b == Rename || b == Handler then Exception else Continue;
    exit := host.Switch(release, 0, schedule);
  }

  /** What each end allows afterwards, under any process id that could have switched before: an old directory moved to the legacy
      path, or a link left there, blocks everyone; a temporary link left behind blocks only runs under the same process id. */
  lemma LaterRunAllowed(before: Paths, release: nat, pid: nat, after: Paths, later: nat)
    requires Switchable(before, pid) && Switchable(before, later)
    requires after == before || Switched(before, release, after) || LinkLeft(before, release, pid, after)
    ensures Switchable(after, later) <==>
              || after == before
              || (!before.app.RealDirectory? && (Switched(before, release, after) || later != pid))
  {
  }
}
