/**
 Install and uninstall of an agent integration, with crashes.

 Before every durable effect `Turn` lets the environment act: other programs may change files and
 links (noted in `foreign`), the system call may fail (`Threw`), or the process may die (`Died`).
 A method that returns `Died` has stopped at that point; only `disk` survives it.
 */
module Integration {
  import opened Common
  import opened UndoLog
  import opened IntegrationState
  import opened IntegrationSteps
  import opened IntegrationOthers
  import opened IntegrationPlan

  class Installer {
    const manifestPath: Path
    const skillFile: Path
    const skillText: Text
    const editor: Editor
    const script: Script
    var disk: Disk
    var mem: Memory
    var now: nat
    ghost var past: Past
    ghost var job: Job  // what the running operation is doing

    /** Nothing is installed yet. */
    constructor (manifestPath: Path, skillFile: Path, skillText: Text, editor: Editor, script: Script)
      requires manifestPath.Plain? && skillFile.Plain? && skillFile != manifestPath
      ensures Valid() && disk == Disk(map[], map[], {}, None, 0, 0) && past.lost == {}
      ensures this.manifestPath == manifestPath && this.skillFile == skillFile && this.skillText == skillText
      ensures this.editor == editor && this.script == script
    {
      this.manifestPath, this.skillFile, this.skillText := manifestPath, skillFile, skillText;
      this.editor, this.script := editor, script;
      disk, now := Disk(map[], map[], {}, None, 0, 0), 0;
      mem := Memory([], [], [], [], Manifest(None, []), []);
      var nothing := Snapshot(map[], map[], 0, 0);
      past := Past(nothing, nothing, {}, {});
      job := Job(true, [], editor, manifestPath, skillFile);
    }

    /** Files and links as they are. */
    ghost function Here(): Snapshot
      reads this`disk, this`now
    {
      Snapshot(disk.files, disk.links, now, disk.minted)
    }

    /** Only paths the environment edited since the operation began count as changed by others. */
    ghost predicate Timely()
      reads this`past, this`now
    {
      past.before.time <= now && past.foreign <= Touched(script, past.before.time, now)
    }

    ghost predicate Valid()
      reads this`disk, this`past, this`now
    {
      skillFile != manifestPath && skillFile.Plain? && Consistent(disk, past, manifestPath) && Timely()
    }

    /** The journal is the job's, and of what others left since it began only the texts it read are gone. */
    ghost predicate OnTrack()
      reads this
    {
      && job == Job(job.install, job.items, editor, manifestPath, skillFile)
      && JournalOf(job, Pending(disk), past.before.minted) && RetiredOf(job, mem.retired)
      && Spares(script, past.before, Here(), Replaced(mem.writes), LinkSet(mem.linked + mem.removedLinks),
           manifestPath)
      && Own(script, past.before, Here(), mem.writes, manifestPath)
    }

    /** An operation is running and can be rolled back. */
    ghost predicate Running()
      reads this
    {
      && skillFile != manifestPath && skillFile.Plain?
      && manifestPath !in past.foreign && manifestPath.Plain?
      && Fresh(disk, past.foreign)
      && Working(disk, mem, past, manifestPath)
      && Timely() && OnTrack()
    }

    /** ... and no effect is half recorded. */
    ghost predicate Ready()
      reads this
    {
      Running() && InSync(disk, mem) && Pending(disk).issuing == []
    }

    /** It is still the same operation that is pending or being finished. */
    twostate predicate SameOperation()
      reads this
    {
      && past.before == old(past).before && past.committed == old(past).committed
      && old(past).foreign <= past.foreign
    }

    /**
     A step of an operation. A credential is lost only by a failure, and only the one created last,
     whose label the journal still has because its id was never saved.
     */
    twostate predicate Continues(r: Outcome)
      reads this
    {
      && SameOperation() && old(disk).created <= disk.created
      && (past.lost == old(past).lost
          || (&& !r.Done? && Pending(disk).issuing != []
              && past.lost <= old(past).lost + Newest(old(disk).created, disk.created)))
    }

    /** A step of a rollback, of a recovery or of finishing: no credential is lost by it. */
    twostate predicate Recovers()
      reads this
    {
      && disk == old(disk).(files := disk.files, links := disk.links, live := disk.live, journal := disk.journal)
      && disk.live <= old(disk).live
      && past == old(past).(foreign := past.foreign, lost := past.lost)
      && old(past).foreign <= past.foreign && past.lost <= old(past).lost
      && old(now) <= now
    }

    /** What others left was changed only where it was one of these texts or links. */
    twostate predicate Spared(marks: iset<Mark>, links: iset<Path>)
      reads this
    {
      Spares(script, old(Here()), Here(), marks, links, manifestPath)
    }

    /** Nothing but `file` changed, unless someone else changed it. */
    twostate predicate OnlyFile(file: Path)
      reads this
    {
      && (forall f :: f !in past.foreign && f != file ==> Get(disk.files, f) == Get(old(disk).files, f))
      && SameLinks(disk.links, old(disk).links, past.foreign)
    }

    /** An uncommitted operation is being taken back. */
    ghost predicate TakingBack()
      reads this`disk, this`past, this`now
    {
      Reverting(disk, past, manifestPath) && Timely()
    }

    /** The environment's turn before an effect: it edits what it may, and says how the effect ends. */
    method Turn() returns (r: Outcome)
      requires manifestPath !in past.foreign && Timely()
      modifies this`disk, this`past, this`now
      ensures Drifted(old(disk), disk, old(past), past, manifestPath) && Timely() && old(now) <= now
      ensures Spared(iset{}, iset{})
    {
      var move := script(now);
      ghost var touched := set f | f in Paths(move) && InReach(f, manifestPath, disk.minted);
      TouchedGrows(script, past.before.time, now, now + 1);
      disk := disk.(
        files := EditFiles(disk.files, move.edits, manifestPath, disk.minted),
        links := EditLinks(disk.links, move.links, manifestPath, disk.minted));
      past := past.(foreign := past.foreign + touched);
      now := now + 1;
      TurnSpares(script, old(Here()), Here(), manifestPath);
      r := move.outcome;
    }

    /** The environment's turn while an operation works. */
    method Step() returns (r: Outcome)
      requires Running()
      modifies this`disk, this`past, this`now
      ensures Running()
      ensures Drifted(old(disk), disk, old(past), past, manifestPath) && Spared(iset{}, iset{})
      ensures InSync(old(disk), mem) ==> InSync(disk, mem)
    {
      hide Spares, Own, JournalOf, RetiredOf;
      r := Turn();
      DriftKeepsWorking(old(disk), disk, mem, old(past), past, manifestPath);
      InFlightIsConsistent(old(disk), old(past), manifestPath);
      DriftKeepsConsistent(old(disk), disk, old(past), past, manifestPath);
      SparesThen(script, past.before, old(Here()), Here(),
        Replaced(mem.writes), LinkSet(mem.linked + mem.removedLinks), iset{}, iset{}, manifestPath);
      OwnTurn(script, past.before, old(Here()), Here(), mem.writes, manifestPath);
    }

    /** The journal names one write more than was applied. */
    ghost predicate Announced(e: Entry)
      reads this
    {
      var j := Pending(disk);
      && Running() && disk.journal.Some?
      && j.writes == Records(mem.writes) + [e]
      && mem.linked == j.linked && mem.removedLinks == j.removedLinks
      && IdSet(mem.issued) == IdSet(j.issued)
    }

    /** Saves one more write in the journal. */
    method Announce(e: Entry) returns (r: Outcome)
      requires Ready()
      requires e.file !in past.foreign ==> e.before == Get(disk.files, e.file)
      requires ManifestWriteOk(past.before.files, e, IdSet(Pending(disk).issued), manifestPath, disk.minted)
      requires IsBusiness(job, e.file, past.before.minted)
      modifies this`disk, this`past, this`now
      ensures Running() && (r.Done? ==> Announced(e))
      ensures OnlyEffects(old(disk), disk, mem, mem, old(past), past)
      ensures SameFiles(disk.files, old(disk).files, past.foreign)
      ensures SameLinks(disk.links, old(disk).links, past.foreign)
      ensures Spared(iset{}, iset{})
    {
      hide Spares, Own, Working, IsBusiness, JournalOf, RetiredOf, ManifestWriteOk;
      r := Done;
      :- Step();
      var j := Pending(disk);
      JournalMore(job, j, e, past.before.minted);
      JournalWrite(disk, mem, past, manifestPath, e);
      disk := Journaled(disk, j.(writes := j.writes + [e]));
    }

    /** Applies the journaled write if the file still holds its `before`. */
    method Apply(w: Written) returns (r: Outcome)
      requires Announced(Record(w))
      requires w.file.CredentialFile? ==> w.file.serial < disk.minted
      modifies this`disk, this`past, this`now, this`mem
      ensures Running() && (r.Done? ==> InSync(disk, mem) && disk.journal.Some?)
      ensures OnlyEffects(old(disk), disk, old(mem), mem, old(past), past)
      ensures OnlyFile(w.file) && Spared(iset{Mark(w.file, w.before)}, iset{})
      ensures r.Done? && w.file !in past.foreign ==> Get(disk.files, w.file) == Some(w.after)
      ensures r.Done? ==> mem == old(mem).(writes := old(mem).writes + [w])
    {
      hide Spares, Own, JournalOf, RetiredOf, Working;
      r := Step();
      SparesMore(script, old(Here()), Here(), iset{}, iset{}, iset{Mark(w.file, w.before)}, iset{}, manifestPath);
      if !r.Done? {
        return;
      }
      if Get(disk.files, w.file) != w.before {
        return Threw;
      }
      ghost var a := Here();
      ApplyWrite(disk, mem, past, manifestPath, w);
      disk := disk.(files := Put(disk.files, w.file, Some(w.after)));
      mem := mem.(writes := mem.writes + [w]);
      WriteSpares(script, past.before, old(Here()), a, Here(), old(mem), mem, w, manifestPath);
      OwnWrite(script, past.before, a, Here(), old(mem).writes, w, manifestPath);
    }

    /** Journals one more write, then applies it if the file still holds `before`. */
    method Write(file: Path, after: Text, before: Option<Text>) returns (r: Outcome)
      requires Ready()
      requires file !in past.foreign ==> before == Get(disk.files, file)
      requires file.CredentialFile? ==> file.serial < disk.minted
      requires ManifestWriteOk(past.before.files, Entry(file, before, Hash(after)),
                 IdSet(Pending(disk).issued), manifestPath, disk.minted)
      requires IsBusiness(job, file, past.before.minted)
      modifies this`disk, this`past, this`now, this`mem
      ensures Running() && (r.Done? ==> Ready() && disk.journal.Some?)
      ensures OnlyEffects(old(disk), disk, old(mem), mem, old(past), past)
      ensures OnlyFile(file) && Spared(iset{Mark(file, before)}, iset{})
      ensures r.Done? && file !in past.foreign ==> Get(disk.files, file) == Some(after)
      ensures r.Done? ==> mem == old(mem).(writes := old(mem).writes + [Written(file, before, after)])
    {
      hide Spares, OnTrack, Working, Fresh, Timely, IsBusiness, ManifestWriteOk;
      ghost var marks := iset{Mark(file, before)};
      r := Announce(Entry(file, before, Hash(after)));
      SparesMore(script, old(Here()), Here(), iset{}, iset{}, marks, iset{}, manifestPath);
      if r.Done? {
        ghost var a := Here();
        r := Apply(Written(file, before, after));
        SparesJoin(script, old(Here()), a, Here(), marks, iset{}, manifestPath);
      }
    }

    /** The environment's turn between operations, or between two effects of a recovery. */
    method Pause() returns (r: Outcome)
      requires Valid()
      modifies this`disk, this`past, this`now
      ensures Valid()
      ensures Drifted(old(disk), disk, old(past), past, manifestPath) && Recovers()
      ensures Spared(iset{}, iset{})
    {
      r := Turn();
      DriftKeepsConsistent(old(disk), disk, old(past), past, manifestPath);
    }

    /** The environment's turn while an operation is taken back. */
    method RevertPause(ghost log: seq<Entry>) returns (r: Outcome)
      requires TakingBack()
      modifies this`disk, this`past, this`now
      ensures TakingBack()
      ensures Drifted(old(disk), disk, old(past), past, manifestPath) && Recovers()
      ensures Spared(iset{}, iset{})
      ensures Within(old(past).before.files, old(disk).files, log, old(past).foreign) ==>
        Within(past.before.files, disk.files, log, past.foreign)
    {
      r := Turn();
      DriftKeepsReverting(old(disk), disk, old(past), past, manifestPath, log);
    }

    /** Only files and links changed, back towards the state before. */
    twostate predicate Undoes()
      reads this
    {
      && disk == old(disk).(files := disk.files, links := disk.links)
      && past == old(past).(foreign := past.foreign) && old(past).foreign <= past.foreign && old(now) <= now
    }

    /** Takes one journaled write back, unless its file no longer holds the text written. */
    method RevertEntry(ghost log: seq<Entry>, ghost k: nat, entry: Entry) returns (r: Outcome)
      requires TakingBack()
      requires 0 < k <= |log| && log <= Pending(disk).writes && log[k - 1] == entry
      requires Within(past.before.files, disk.files, log[..k], past.foreign)
      modifies this`disk, this`past, this`now
      ensures TakingBack() && Undoes() && Spared(Left(log), iset{})
      ensures SameLinks(disk.links, old(disk).links, past.foreign)
      ensures r.Done? ==> Within(past.before.files, disk.files, log[..k - 1], past.foreign)
    {
      hide Spares, Reverting, Within, Timely, Left;
      r := RevertPause(log[..k]);
      SparesMore(script, old(Here()), Here(), iset{}, iset{}, Left(log), iset{}, manifestPath);
      if !r.Done? {
        return;
      }
      UndoWrite(disk, past, manifestPath, log, k);
      ghost var a := Here();
      if Get(disk.files, entry.file) == Some(entry.afterHash.of) {
        disk := disk.(files := Put(disk.files, entry.file, entry.before));
      }
      assert Mark(entry.file, Some(entry.afterHash.of)) in Left(log) by {
        LeftMark(log, k - 1);
      }
      SparesFileChange(script, old(Here()), a, Here(), entry.file, Left(log), iset{}, manifestPath);
    }

    /** Takes the writes of `log` back, newest first. */
    method RevertFiles(log: seq<Entry>) returns (r: Outcome)
      requires TakingBack() && log <= Pending(disk).writes
      requires Within(past.before.files, disk.files, log, past.foreign)
      modifies this`disk, this`past, this`now
      ensures TakingBack() && Undoes() && Spared(Left(log), iset{})
      ensures SameLinks(disk.links, old(disk).links, past.foreign)
      ensures r.Done? ==> SameFiles(disk.files, past.before.files, past.foreign)
    {
      hide Spares, Reverting, Timely;
      assert log[..|log|] == log;
      SparesNow(script, Here(), Left(log), iset{}, manifestPath);
      for k := |log| downto 0
        invariant TakingBack() && Undoes() && Spared(Left(log), iset{})
        invariant SameLinks(disk.links, old(disk).links, past.foreign)
        invariant Within(past.before.files, disk.files, log[..k], past.foreign)
      {
        ghost var a := Here();
        r := RevertEntry(log, k + 1, log[k]);
        SparesJoin(script, old(Here()), a, Here(), Left(log), iset{}, manifestPath);
        if !r.Done? {
          return;
        }
      }
      r := Done;
    }

    /** Takes one created link away if it is still ours. */
    method TakeLink(linked: seq<Path>, i: nat, ghost removed: seq<Path>) returns (r: Outcome)
      requires TakingBack() && i < |linked| && linked <= Pending(disk).linked
      requires LinksBack(past.before.links, disk.links, linked[i..] + removed, past.foreign)
      modifies this`disk, this`past, this`now
      ensures TakingBack() && Undoes() && Spared(iset{}, iset{linked[i]})
      ensures SameFiles(disk.files, old(disk).files, past.foreign)
      ensures r.Done? ==> LinksBack(past.before.links, disk.links, linked[i + 1..] + removed, past.foreign)
    {
      hide Spares;
      r := RevertPause([]);
      SparesMore(script, old(Here()), Here(), iset{}, iset{}, iset{}, iset{linked[i]}, manifestPath);
      if !r.Done? {
        return;
      }
      TakeLinkBack(disk, past, manifestPath, linked, i, removed);
      ghost var a := Here();
      if At(disk.links, linked[i]) == Some(Owned) {
        disk := disk.(links := disk.links - {linked[i]});
      }
      SparesLinkChange(script, old(Here()), a, Here(), linked[i], iset{}, iset{linked[i]}, manifestPath);
    }

    /** Makes one removed link again if it is missing. */
    method PutLink(removed: seq<Path>, i: nat) returns (r: Outcome)
      requires TakingBack() && i < |removed| && removed <= Pending(disk).removedLinks
      requires LinksBack(past.before.links, disk.links, removed[i..], past.foreign)
      modifies this`disk, this`past, this`now
      ensures TakingBack() && Undoes() && Spared(iset{}, iset{removed[i]})
      ensures SameFiles(disk.files, old(disk).files, past.foreign)
      ensures r.Done? ==> LinksBack(past.before.links, disk.links, removed[i + 1..], past.foreign)
    {
      hide Spares;
      r := RevertPause([]);
      SparesMore(script, old(Here()), Here(), iset{}, iset{}, iset{}, iset{removed[i]}, manifestPath);
      if !r.Done? {
        return;
      }
      PutLinkBack(disk, past, manifestPath, removed, i);
      ghost var a := Here();
      if At(disk.links, removed[i]) == None {
        disk := disk.(links := disk.links[removed[i] := Owned]);
      }
      SparesLinkChange(script, old(Here()), a, Here(), removed[i], iset{}, iset{removed[i]}, manifestPath);
    }

    /** Takes the links back: those made go if they are still ours, those removed come back. */
    method RevertLinks(linked: seq<Path>, removed: seq<Path>) returns (r: Outcome)
      requires TakingBack()
      requires linked <= Pending(disk).linked && removed <= Pending(disk).removedLinks
      requires LinksBack(past.before.links, disk.links, linked + removed, past.foreign)
      modifies this`disk, this`past, this`now
      ensures TakingBack() && Undoes() && Spared(iset{}, LinkSet(linked + removed))
      ensures SameFiles(disk.files, old(disk).files, past.foreign)
      ensures r.Done? ==> SameLinks(disk.links, past.before.links, past.foreign)
    {
      hide Spares, Reverting, Timely;
      ghost var links := LinkSet(linked + removed);
      SparesNow(script, Here(), iset{}, links, manifestPath);
      var i := 0;
      while i < |linked|
        invariant 0 <= i <= |linked|
        invariant TakingBack() && Undoes() && Spared(iset{}, links)
        invariant SameFiles(disk.files, old(disk).files, past.foreign)
        invariant LinksBack(past.before.links, disk.links, linked[i..] + removed, past.foreign)
      {
        ghost var a := Here();
        r := TakeLink(linked, i, removed);
        SparesThen(script, old(Here()), a, Here(), iset{}, links, iset{}, iset{linked[i]}, manifestPath);
        if !r.Done? {
          return;
        }
        i := i + 1;
      }
      i := 0;
      while i < |removed|
        invariant 0 <= i <= |removed|
        invariant TakingBack() && Undoes() && Spared(iset{}, links)
        invariant SameFiles(disk.files, old(disk).files, past.foreign)
        invariant LinksBack(past.before.links, disk.links, removed[i..], past.foreign)
      {
        ghost var a := Here();
        r := PutLink(removed, i);
        SparesThen(script, old(Here()), a, Here(), iset{}, links, iset{}, iset{removed[i]}, manifestPath);
        if !r.Done? {
          return;
        }
        i := i + 1;
      }
      r := Done;
    }

    /** Asks the issuer to revoke a credential; a failure may come before or after it did. */
    method Revoke(id: Id) returns (r: Outcome)
      requires Valid() && Revocable(disk, past, manifestPath, id)
      modifies this`disk, this`past, this`now
      ensures Valid() && Recovers() && Spared(iset{}, iset{})
      ensures disk.journal == old(disk).journal
      ensures SameFiles(disk.files, old(disk).files, past.foreign)
      ensures SameLinks(disk.links, old(disk).links, past.foreign)
      ensures old(disk).live - {id} <= disk.live
      ensures old(past).lost - {id} <= past.lost
      ensures r.Done? ==> id !in disk.live && id !in past.lost
    {
      hide Spares;
      r := Done;
      :- Pause();
      DriftKeepsNamed(old(disk), disk, old(past), past, manifestPath);
      var reached: bool := *;
      r := *;
      if reached || r.Done? {
        RevokeOne(disk, past, manifestPath, id);
        disk := disk.(live := disk.live - {id});
        past := past.(lost := past.lost - {id});
      }
    }

    /** Revokes what a failed operation created; `failed` when some revocation failed. */
    method RevokeCreated(ids: seq<Id>) returns (r: Outcome, failed: bool)
      requires Valid() && AsBefore(disk, past)
      requires ids == [] || disk.journal.Some?
      requires disk.journal.Some? ==> !disk.journal.value.committed
      requires forall k :: 0 <= k < |ids| ==> ids[k] in IdSet(Pending(disk).issued) + past.lost
      modifies this`disk, this`past, this`now
      ensures Valid() && AsBefore(disk, past) && disk.journal == old(disk).journal
      ensures Recovers() && Spared(iset{}, iset{})
      ensures r.Done? && !failed ==> forall k :: 0 <= k < |ids| ==> ids[k] !in disk.live
    {
      hide Spares, Timely, Fresh;
      failed := false;
      SparesNow(script, Here(), iset{}, iset{}, manifestPath);
      for i := 0 to |ids|
        invariant Valid() && AsBefore(disk, past) && disk.journal == old(disk).journal
        invariant Recovers() && Spared(iset{}, iset{})
        invariant !failed ==> forall k :: 0 <= k < i ==> ids[k] !in disk.live
        invariant forall k :: i <= k < |ids| ==>
          ids[k] in IdSet(Pending(disk).issued) + past.lost || ids[k] !in disk.live
      {
        ghost var a := Here();
        r := Revoke(ids[i]);
        SparesJoin(script, old(Here()), a, Here(), iset{}, iset{}, manifestPath);
        if r.Died? {
          return;
        }
        failed := failed || r.Threw?;
      }
      r := Done;
    }

    /** The environment's turn once everything is as before. */
    method TakenBackPause() returns (r: Outcome)
      requires Valid() && AsBefore(disk, past)
      modifies this`disk, this`past, this`now
      ensures Valid() && AsBefore(disk, past) && Recovers() && Spared(iset{}, iset{})
      ensures disk == old(disk).(files := disk.files, links := disk.links)
    {
      hide Spares, Consistent, Timely, AsBefore;
      r := Pause();
      AsBeforeDrifts(old(disk), disk, old(past), past, manifestPath);
    }

    /** Takes writes and links back, as far as the journal or memory lists them. */
    method Revert(log: seq<Entry>, linked: seq<Path>, removed: seq<Path>) returns (r: Outcome)
      requires TakingBack() && Valid() && log <= Pending(disk).writes
      requires Within(past.before.files, disk.files, log, past.foreign)
      requires linked <= Pending(disk).linked && removed <= Pending(disk).removedLinks
      requires LinksBack(past.before.links, disk.links, linked + removed, past.foreign)
      modifies this`disk, this`past, this`now
      ensures Valid() && TakingBack() && Undoes() && Spared(Left(log), LinkSet(linked + removed))
      ensures r.Done? ==> AsBefore(disk, past)
    {
      hide Spares, Timely;
      ghost var marks, links := Left(log), LinkSet(linked + removed);
      r := RevertFiles(log);
      SparesMore(script, old(Here()), Here(), marks, iset{}, marks, links, manifestPath);
      if r.Done? {
        ghost var a := Here();
        r := RevertLinks(linked, removed);
        SparesThen(script, old(Here()), a, Here(), marks, links, iset{}, links, manifestPath);
      }
      InFlightIsConsistent(disk, past, manifestPath);
    }

    /** Takes a failed operation back as far as memory lists it; `failed` when some revocation failed. */
    method TakeBack() returns (r: Outcome, failed: bool)
      requires Running()
      modifies this`disk, this`past, this`now
      ensures Valid() && Recovers() && disk.journal == old(disk).journal
      ensures disk.journal.Some? ==> !disk.journal.value.committed
      ensures Spared(Left(Records(mem.writes)), LinkSet(mem.linked + mem.removedLinks))
      ensures r.Done? || disk.journal.None? ==> AsBefore(disk, past)
      ensures r.Done? && !failed ==> forall id :: id in mem.issued ==> id !in disk.live
      ensures disk.journal.None? ==> mem.issued == []
      ensures disk.journal.Some? ==> IdSet(disk.journal.value.issued) <= IdSet(mem.issued)
    {
      hide Spares, OnTrack, Working, Consistent, Reverting, AsBefore, Left, LinkSet;
      failed := false;
      ghost var marks, links := Left(Records(mem.writes)), LinkSet(mem.linked + mem.removedLinks);
      CanRollBack(disk, mem, past, manifestPath);
      CanTakeBack(disk, past, manifestPath);
      r := Revert(Records(mem.writes), mem.linked, mem.removedLinks);
      if !r.Done? {
        NothingSaved(old(disk), disk, mem, old(past), past, manifestPath);
        return;
      }
      ghost var a := Here();
      r, failed := RevokeCreated(mem.issued);
      SparesThen(script, old(Here()), a, Here(), marks, links, iset{}, iset{}, manifestPath);
    }

    /** Undoes a failed operation in the process it failed in. */
    method Rollback() returns (r: Outcome)
      requires Running()
      modifies this`disk, this`past, this`now
      ensures Valid() && !r.Done? && Recovers()
      ensures Spared(Left(Records(mem.writes)), LinkSet(mem.linked + mem.removedLinks))
      ensures disk.journal.None? ==> AsBefore(disk, past) && forall id :: id in mem.issued ==> id !in disk.live
      ensures disk.journal.Some? ==> disk.journal == old(disk).journal && !disk.journal.value.committed
    {
      hide Spares, Running, Consistent, AsBefore, Left, LinkSet, Records;
      ghost var marks, links := Left(Records(mem.writes)), LinkSet(mem.linked + mem.removedLinks);
      var failed;
      r, failed := TakeBack();
      if !r.Done? {
        return;
      }
      if !failed && disk.journal.Some? {
        ghost var a := Here();
        r := TakenBackPause();
        SparesThen(script, old(Here()), a, Here(), marks, links, iset{}, iset{}, manifestPath);
        if !r.Done? {
          return;
        }
        ForgetUndone(disk, past, manifestPath);
        disk := disk.(journal := None);
      }
      r := Threw;
    }

    /** Revokes what an interrupted operation recorded as issued. */
    method RevokeIssued() returns (r: Outcome)
      requires Valid() && AsBefore(disk, past) && disk.journal.Some? && !disk.journal.value.committed
      modifies this`disk, this`past, this`now
      ensures Valid() && AsBefore(disk, past) && disk.journal == old(disk).journal
      ensures Recovers() && Spared(iset{}, iset{})
      ensures r.Done? ==> forall id :: id in disk.journal.value.issued ==> id !in disk.live
    {
      hide Spares, Timely, Fresh;
      var issued := disk.journal.value.issued;
      SparesNow(script, Here(), iset{}, iset{}, manifestPath);
      for i := 0 to |issued|
        invariant Valid() && AsBefore(disk, past) && disk.journal == old(disk).journal
        invariant Recovers() && Spared(iset{}, iset{})
        invariant forall k :: 0 <= k < i ==> issued[k] !in disk.live
      {
        ghost var a := Here();
        r := Revoke(issued[i]);
        SparesJoin(script, old(Here()), a, Here(), iset{}, iset{}, manifestPath);
        if !r.Done? {
          return;
        }
      }
      r := Done;
    }

    /** Takes an interrupted operation back. */
    method UndoPending() returns (r: Outcome)
      requires Valid() && disk.journal.Some? && !disk.journal.value.committed
      modifies this`disk, this`past, this`now
      ensures Valid() && Recovers()
      ensures
        var j := old(disk).journal.value;
        && Spared(Left(j.writes), LinkSet(j.linked + j.removedLinks))
        && (r.Done? ==> disk.journal.None? && AsBefore(disk, past))
        && (r.Done? ==> forall id :: id in j.issued ==> id !in disk.live)
      ensures !r.Done? ==> disk.journal == old(disk).journal
    {
      hide Spares, Consistent, Reverting, AsBefore, Left, LinkSet;
      var j := disk.journal.value;
      ghost var marks, links := Left(j.writes), LinkSet(j.linked + j.removedLinks);
      PendingCanBeTakenBack(disk, past, manifestPath);
      r := Revert(j.writes, j.linked, j.removedLinks);
      if !r.Done? {
        return;
      }
      ghost var a := Here();
      r := RevokeIssued();
      SparesThen(script, old(Here()), a, Here(), marks, links, iset{}, iset{}, manifestPath);
      if !r.Done? {
        return;
      }
      a := Here();
      r := TakenBackPause();
      SparesThen(script, old(Here()), a, Here(), marks, links, iset{}, iset{}, manifestPath);
      if r.Done? {
        ForgetUndone(disk, past, manifestPath);
        disk := disk.(journal := None);
      }
    }

    /** Unlinks a file of a finished operation if it still has the text to remove. */
    method RemoveIfUnchanged(file: Path, digest: Digest) returns (r: Outcome)
      requires Valid() && disk.journal.Some? && disk.journal.value.committed && file != manifestPath
      requires
        var j := disk.journal.value;
        || (exists item :: item in j.retired && item.file == file && item.digest == digest)
        || (exists item :: item in j.cleanup && item.file == file && item.digest == digest)
      modifies this`disk, this`past, this`now
      ensures Valid() && Undoes() && Spared(iset{Mark(file, Some(digest.of))}, iset{})
      ensures forall f :: f !in past.foreign && f != file ==> Get(disk.files, f) == Get(old(disk).files, f)
      ensures r.Done? && file !in past.foreign ==> Get(disk.files, file) != Some(digest.of)
      ensures file !in past.foreign && Get(disk.files, file) != Get(old(disk).files, file) ==>
        Get(disk.files, file) == None && Get(old(disk).files, file) == Some(digest.of)
    {
      hide Spares;
      ghost var marks := iset{Mark(file, Some(digest.of))};
      r := Pause();
      SparesMore(script, old(Here()), Here(), iset{}, iset{}, marks, iset{}, manifestPath);
      if !r.Done? {
        return;
      }
      ghost var a := Here();
      if Get(disk.files, file) == Some(digest.of) {
        RemoveOne(disk, past, manifestPath, file);
        disk := disk.(files := disk.files - {file});
      }
      SparesFileChange(script, old(Here()), a, Here(), file, marks, iset{}, manifestPath);
    }

    /** Retired credentials that are revoked, with their unchanged files removed. */
    ghost predicate RetiredGone(retired: seq<Retired>)
      reads this
    {
      forall item :: item in retired ==>
        && item.id !in disk.live
        && (item.file !in past.foreign ==> Get(disk.files, item.file) != Some(item.digest.of))
    }

    ghost predicate CleanedUp(cleanup: seq<Cleanup>)
      reads this
    {
      forall item :: item in cleanup && item.file !in past.foreign ==>
        Get(disk.files, item.file) != Some(item.digest.of)
    }

    /** The committed operation of journal `j` is finished. */
    ghost predicate Finished(j: Journal)
      reads this
    {
      && AsCommitted(disk, j, past, manifestPath)
      && RowsOf(disk.files, manifestPath) == RowsOf(past.committed.files, manifestPath)
      && RetiredGone(j.retired) && CleanedUp(j.cleanup)
    }

    /** The journal is still the committed one, and only texts it is to remove were removed. */
    twostate predicate Finishes()
      reads this
    {
      && Recovers() && disk.journal == old(disk).journal && disk.journal.Some?
      && Spared(ToRemove(disk.journal.value), iset{})
    }

    method FinishOne(item: Retired, ghost before: seq<Retired>) returns (r: Outcome)
      requires Valid() && disk.journal.Some? && disk.journal.value.committed
      requires item in disk.journal.value.retired
      modifies this`disk, this`past, this`now
      ensures Valid() && Finishes()
      ensures old(RetiredGone(before)) ==> RetiredGone(before)
      ensures r.Done? ==> RetiredGone([item])
    {
      hide Spares, Consistent, Timely;
      ghost var j, marks := disk.journal.value, iset{Mark(item.file, Some(item.digest.of))};
      assert Revocable(disk, past, manifestPath, item.id) && item.file != manifestPath by {
        RetiredIsRevocable(disk, past, manifestPath, item);
      }
      assert marks <= ToRemove(j);
      r := Revoke(item.id);
      SparesMore(script, old(Here()), Here(), iset{}, iset{}, ToRemove(j), iset{}, manifestPath);
      if !r.Done? {
        return;
      }
      ghost var a := Here();
      r := RemoveIfUnchanged(item.file, item.digest);
      SparesThen(script, old(Here()), a, Here(), ToRemove(j), iset{}, marks, iset{}, manifestPath);
    }

    /** Retires every credential it can; `failed` when some attempt failed. */
    method FinishRetired() returns (r: Outcome, failed: bool)
      requires Valid() && disk.journal.Some? && disk.journal.value.committed
      modifies this`disk, this`past, this`now
      ensures Valid() && Finishes()
      ensures r.Done? && !failed ==> RetiredGone(disk.journal.value.retired)
    {
      hide Spares, Consistent, Timely, ToRemove;
      var retired := disk.journal.value.retired;
      ghost var marks := ToRemove(disk.journal.value);
      failed := false;
      SparesNow(script, Here(), marks, iset{}, manifestPath);
      for i := 0 to |retired|
        invariant Valid() && Finishes()
        invariant !failed ==> RetiredGone(retired[..i])
      {
        ghost var a := Here();
        r := FinishOne(retired[i], retired[..i]);
        SparesJoin(script, old(Here()), a, Here(), marks, iset{}, manifestPath);
        if r.Died? {
          return;
        }
        failed := failed || r.Threw?;
        assert retired[..i + 1] == retired[..i] + [retired[i]];
      }
      assert retired[..|retired|] == retired;
      r := Done;
    }

    method FinishCleanup() returns (r: Outcome)
      requires Valid() && disk.journal.Some? && disk.journal.value.committed
      modifies this`disk, this`past, this`now
      ensures Valid() && Finishes()
      ensures old(RetiredGone(disk.journal.value.retired)) ==> RetiredGone(disk.journal.value.retired)
      ensures r.Done? ==> CleanedUp(disk.journal.value.cleanup)
    {
      hide Spares, Timely, Consistent, ToRemove;
      var cleanup := disk.journal.value.cleanup;
      ghost var marks := ToRemove(disk.journal.value);
      RemovalMark(disk.journal.value);
      SparesNow(script, Here(), marks, iset{}, manifestPath);
      for i := 0 to |cleanup|
        invariant Valid() && Finishes()
        invariant old(RetiredGone(disk.journal.value.retired)) ==> RetiredGone(disk.journal.value.retired)
        invariant CleanedUp(cleanup[..i])
      {
        assert cleanup[i] in cleanup;
        CleanupIsNotManifest(disk, past, manifestPath, cleanup[i]);
        ghost var a, step := Here(), iset{Mark(cleanup[i].file, Some(cleanup[i].digest.of))};
        r := RemoveIfUnchanged(cleanup[i].file, cleanup[i].digest);
        SparesThen(script, old(Here()), a, Here(), marks, iset{}, step, iset{}, manifestPath);
        if !r.Done? {
          return;
        }
        assert cleanup[..i + 1] == cleanup[..i] + [cleanup[i]];
      }
      assert cleanup[..|cleanup|] == cleanup;
      r := Done;
    }

    /** Finishes an operation that was interrupted after its commit point. */
    method FinishPending() returns (r: Outcome)
      requires Valid() && disk.journal.Some? && disk.journal.value.committed
      modifies this`disk, this`past, this`now
      ensures Valid() && Recovers() && Spared(ToRemove(old(disk).journal.value), iset{})
      ensures !r.Done? ==> disk.journal == old(disk).journal
      ensures r.Done? ==> disk.journal.None? && Finished(old(disk).journal.value)
    {
      hide Spares, ToRemove;
      ghost var marks := ToRemove(disk.journal.value);
      var failed;
      r, failed := FinishRetired();
      if !r.Done? {
        return;
      }
      if failed {
        return Threw;
      }
      ghost var a := Here();
      r := FinishCleanup();
      SparesJoin(script, old(Here()), a, Here(), marks, iset{}, manifestPath);
      if !r.Done? {
        return;
      }
      a := Here();
      r := Pause();
      SparesThen(script, old(Here()), a, Here(), marks, iset{}, iset{}, iset{}, manifestPath);
      if !r.Done? {
        return;
      }
      FinishingKeepsRows(disk, disk.journal.value, past, manifestPath);
      ForgetFinished(disk, past, manifestPath);
      disk := disk.(journal := None);
    }

    /** Undoes an interrupted operation, or finishes it if it had committed. */
    method RecoverJournal() returns (r: Outcome)
      requires Valid()
      modifies this`disk, this`past, this`now
      ensures Valid() && Recovers()
      ensures Spared(OwnMarks(old(disk).journal), OwnLinks(old(disk).journal))
      ensures old(disk).journal.None? ==> Drifted(old(disk), disk, old(past), past, manifestPath)
      ensures r.Done? ==> disk.journal.None?
      ensures !r.Done? ==> disk.journal == old(disk).journal
      ensures r.Done? && old(disk).journal.Some? && !old(disk).journal.value.committed ==>
        AsBefore(disk, past) && forall id :: id in old(disk).journal.value.issued ==> id !in disk.live
      ensures r.Done? && old(disk).journal.Some? && old(disk).journal.value.committed ==>
        Finished(old(disk).journal.value)
    {
      hide Spares, Timely, Consistent, ToRemove, Left, LinkSet;
      if disk.journal.None? {
        r := Pause();
      } else if disk.journal.value.committed {
        r := FinishPending();
      } else {
        r := UndoPending();
      }
    }

    /** The journal names one link more than was made or removed. */
    ghost predicate LinkAnnounced(link: Path)
      reads this
    {
      var j := Pending(disk);
      && Running() && disk.journal.Some? && IsBusinessLink(job, link)
      && Records(mem.writes) == j.writes && IdSet(mem.issued) == IdSet(j.issued)
      && j.linked == mem.linked + (if job.install then [link] else [])
      && j.removedLinks == mem.removedLinks + (if job.install then [] else [link])
    }

    /** Saves in the journal that a link will be made or removed. */
    method AnnounceLink(link: Path, install: bool) returns (r: Outcome)
      requires Ready() && install == job.install && IsBusinessLink(job, link)
      requires if install then At(disk.links, link) == None else At(disk.links, link) == Some(Owned)
      modifies this`disk, this`past, this`now
      ensures Running() && (r.Done? ==> LinkAnnounced(link)) && Spared(iset{}, iset{})
      ensures OnlyEffects(old(disk), disk, mem, mem, old(past), past)
      ensures SameFiles(disk.files, old(disk).files, past.foreign)
    {
      hide Spares, Own, IsBusinessLink, Working, Fresh, JournalOf, RetiredOf;
      var j := Pending(disk);
      JournalOneLink(job, j, link, past.before.minted);
      if install {
        JournaledIsFresh(disk, j.(linked := j.linked + [link]), past.foreign);
        JournalLink(disk, mem, past, manifestPath, link);
        disk := Journaled(disk, j.(linked := j.linked + [link]));
      } else {
        JournaledIsFresh(disk, j.(removedLinks := j.removedLinks + [link]), past.foreign);
        JournalUnlink(disk, mem, past, manifestPath, link);
        disk := Journaled(disk, j.(removedLinks := j.removedLinks + [link]));
      }
      r := Step();
    }

    /** Makes the link that was announced. */
    method MakeLink(link: Path)
      requires LinkAnnounced(link) && job.install && At(disk.links, link) == None
      modifies this`disk, this`mem
      ensures Running() && InSync(disk, mem) && Spared(iset{}, iset{link})
      ensures OnlyEffects(old(disk), disk, old(mem), mem, past, past) && disk.files == old(disk).files
      ensures mem == old(mem).(linked := old(mem).linked + [link])
    {
      hide Spares, Own, Working;
      ApplyLink(disk, mem, past, manifestPath, link);
      disk := disk.(links := disk.links[link := Owned]);
      mem := mem.(linked := mem.linked + [link]);
      LinkSpares(script, past.before, old(Here()), Here(), old(mem), mem, link, manifestPath);
      OwnSameFiles(script, past.before, old(Here()), Here(), mem.writes, manifestPath);
    }

    /** Removes the link that was announced, if it is still ours. */
    method DropLink(link: Path)
      requires LinkAnnounced(link) && !job.install
      modifies this`disk, this`mem
      ensures Running() && InSync(disk, mem) && Spared(iset{}, iset{link})
      ensures OnlyEffects(old(disk), disk, old(mem), mem, past, past) && disk.files == old(disk).files
      ensures mem == old(mem).(removedLinks := old(mem).removedLinks + [link])
    {
      hide Spares, Own, Working;
      ApplyUnlink(disk, mem, past, manifestPath, link);
      if At(disk.links, link) == Some(Owned) {
        disk := disk.(links := disk.links - {link});
      }
      mem := mem.(removedLinks := mem.removedLinks + [link]);
      LinkSpares(script, past.before, old(Here()), Here(), old(mem), mem, link, manifestPath);
      OwnSameFiles(script, past.before, old(Here()), Here(), mem.writes, manifestPath);
    }

    /** Creates one skill link if it is missing. */
    method LinkIfMissing(link: Path) returns (r: Outcome)
      requires Ready() && job.install && IsBusinessLink(job, link)
      modifies this`disk, this`past, this`now, this`mem
      ensures Running() && (r.Done? ==> Ready()) && Spared(iset{}, iset{link})
      ensures OnlyEffects(old(disk), disk, old(mem), mem, old(past), past)
      ensures SameFiles(disk.files, old(disk).files, past.foreign)
      ensures mem == old(mem).(linked := mem.linked)
      ensures r.Done? ==> IsLinked(link, mem, past)
    {
      hide Spares, OnTrack, Timely, Fresh, Working, IsBusinessLink;
      r := Step();
      SparesMore(script, old(Here()), Here(), iset{}, iset{}, iset{}, iset{link}, manifestPath);
      if !r.Done? || At(disk.links, link) != None {
        LinkedBefore(disk, mem, past, manifestPath, link);
        return;
      }
      ghost var a := Here();
      r := AnnounceLink(link, true);
      SparesThen(script, old(Here()), a, Here(), iset{}, iset{link}, iset{}, iset{}, manifestPath);
      if !r.Done? {
        return;
      }
      if At(disk.links, link) != None {
        return Threw;
      }
      a := Here();
      MakeLink(link);
      SparesThen(script, old(Here()), a, Here(), iset{}, iset{link}, iset{}, iset{link}, manifestPath);
    }

    method LinkMissing(links: seq<Path>) returns (r: Outcome)
      requires Ready() && job.install && (forall l :: l in links ==> IsBusinessLink(job, l))
      modifies this`disk, this`past, this`now, this`mem
      ensures Running() && (r.Done? ==> Ready()) && Spared(iset{}, LinkSet(links))
      ensures OnlyEffects(old(disk), disk, old(mem), mem, old(past), past)
      ensures SameFiles(disk.files, old(disk).files, past.foreign)
      ensures mem == old(mem).(linked := mem.linked)
      ensures r.Done? ==> AllLinked(links, mem, past)
    {
      hide Spares, OnTrack, Timely, Fresh, Working, IsBusinessLink, IsLinked;
      SparesNow(script, Here(), iset{}, LinkSet(links), manifestPath);
      for i := 0 to |links|
        invariant Ready() && Spared(iset{}, LinkSet(links))
        invariant OnlyEffects(old(disk), disk, old(mem), mem, old(past), past)
        invariant SameFiles(disk.files, old(disk).files, past.foreign)
        invariant mem == old(mem).(linked := mem.linked)
        invariant AllLinked(links[..i], mem, past)
      {
        ghost var m, p, a := mem, past, Here();
        r := LinkIfMissing(links[i]);
        SparesThen(script, old(Here()), a, Here(), iset{}, LinkSet(links), iset{}, iset{links[i]}, manifestPath);
        if !r.Done? {
          return;
        }
        LinkedLasts(links, i, m, mem, p, past);
      }
      assert links[..|links|] == links;
      r := Done;
    }

    /** Removes one skill link if it is ours. */
    method UnlinkIfOwned(link: Path) returns (r: Outcome)
      requires Ready() && !job.install && IsBusinessLink(job, link)
      modifies this`disk, this`past, this`now, this`mem
      ensures Running() && (r.Done? ==> Ready()) && Spared(iset{}, iset{link})
      ensures OnlyEffects(old(disk), disk, old(mem), mem, old(past), past)
      ensures SameFiles(disk.files, old(disk).files, past.foreign)
      ensures mem == old(mem).(removedLinks := mem.removedLinks)
      ensures r.Done? ==> IsUnlinked(link, mem, past)
    {
      hide Spares, Working, Timely, Fresh, IsBusinessLink;
      r := Step();
      SparesMore(script, old(Here()), Here(), iset{}, iset{}, iset{}, iset{link}, manifestPath);
      if !r.Done? || At(disk.links, link) != Some(Owned) {
        NotOursBefore(disk, mem, past, manifestPath, link);
        return;
      }
      ghost var a := Here();
      r := AnnounceLink(link, false);
      SparesThen(script, old(Here()), a, Here(), iset{}, iset{link}, iset{}, iset{}, manifestPath);
      if !r.Done? {
        return;
      }
      a := Here();
      DropLink(link);
      SparesThen(script, old(Here()), a, Here(), iset{}, iset{link}, iset{}, iset{link}, manifestPath);
    }

    method UnlinkOwned(links: seq<Path>) returns (r: Outcome)
      requires Ready() && !job.install && (forall l :: l in links ==> IsBusinessLink(job, l))
      modifies this`disk, this`past, this`now, this`mem
      ensures Running() && (r.Done? ==> Ready()) && Spared(iset{}, LinkSet(links))
      ensures OnlyEffects(old(disk), disk, old(mem), mem, old(past), past)
      ensures SameFiles(disk.files, old(disk).files, past.foreign)
      ensures mem == old(mem).(removedLinks := mem.removedLinks)
      ensures r.Done? ==> AllUnlinked(links, mem, past)
    {
      hide Spares, OnTrack, Timely, Fresh, Working, IsBusinessLink, IsUnlinked;
      SparesNow(script, Here(), iset{}, LinkSet(links), manifestPath);
      for i := 0 to |links|
        invariant Ready() && Spared(iset{}, LinkSet(links))
        invariant OnlyEffects(old(disk), disk, old(mem), mem, old(past), past)
        invariant SameFiles(disk.files, old(disk).files, past.foreign)
        invariant mem == old(mem).(removedLinks := mem.removedLinks)
        invariant AllUnlinked(links[..i], mem, past)
      {
        ghost var m, p, a := mem, past, Here();
        r := UnlinkIfOwned(links[i]);
        SparesThen(script, old(Here()), a, Here(), iset{}, LinkSet(links), iset{}, iset{links[i]}, manifestPath);
        if !r.Done? {
          return;
        }
        UnlinkedLasts(links, i, m, mem, p, past);
      }
      assert links[..|links|] == links;
      r := Done;
    }

    /** Edits the agent's config file from what this operation last wrote to it, or from what planning read. */
    method WriteEntry(item: Planned, setting: Setting) returns (r: Outcome)
      requires Ready() && PlanHolds(job, item, past) && item in job.items
      modifies this`disk, this`past, this`now, this`mem
      ensures Running() && (r.Done? ==> Ready())
      ensures OnlyEffects(old(disk), disk, old(mem), mem, old(past), past)
      ensures OnlyFile(item.pick.config)
      ensures
        var before := TextNow(old(mem).writes, item.pick.config, item.text);
        && Spared(iset{Mark(item.pick.config, before)}, iset{})
        && (r.Done? ==>
              var after := editor(item.pick.key, setting, before);
              && after.Some?
              && mem == old(mem).(writes := old(mem).writes + [Written(item.pick.config, before, after.value)]))
    {
      hide Spares, Own, Running;
      assert manifestPath == job.manifest && IsBusiness(job, item.pick.config, past.before.minted) by {
        JobIsOurs();
      }
      var before := TextNow(mem.writes, item.pick.config, item.text);
      WrittenTextIsThere(item.pick.config);
      var after := editor(item.pick.key, setting, before);
      if after == None {
        SparesNow(script, Here(), iset{Mark(item.pick.config, before)}, iset{}, manifestPath);
        return Threw;
      }
      r := Write(item.pick.config, after.value, before);
    }

    lemma JobIsOurs()
      requires Running()
      ensures job == Job(job.install, job.items, editor, manifestPath, skillFile)
      ensures manifestPath !in past.foreign && skillFile != manifestPath && manifestPath.Plain? && skillFile.Plain?
    {
    }

    /** What this operation last wrote to a file is what it holds, unless someone else edited it. */
    lemma WrittenTextIsThere(f: Path)
      requires Running()
      ensures f !in past.foreign ==> Get(disk.files, f) == TextNow(mem.writes, f, Get(past.before.files, f))
    {
      LastWriteIsLatest(past.before.files, mem.writes, f);
    }

    /** A credential is about to be created or recorded: its label is in the journal. */
    ghost predicate Issuing(name: string)
      reads this
    {
      Running() && InSync(disk, mem) && disk.journal.Some? && Pending(disk).issuing == [name]
    }

    /** Asks the issuer for a credential; the answer may get lost after it was created. */
    method Create(ghost name: string) returns (r: Outcome, id: Id)
      requires Issuing(name)
      modifies this`disk, this`past, this`now
      ensures Issuing(name)
      ensures disk == old(disk).(files := disk.files, links := disk.links, live := disk.live, created := disk.created)
      ensures past == old(past).(foreign := past.foreign, lost := past.lost)
      ensures old(past).foreign <= past.foreign
      ensures SameFiles(disk.files, old(disk).files, past.foreign)
      ensures id == old(disk).created && old(disk).created <= disk.created <= id + 1
      ensures past.lost == old(past).lost + Newest(old(disk).created, disk.created)
      ensures old(disk).created < disk.created ==> id !in old(past).lost
      ensures r.Done? ==>
        && disk.created == id + 1 && id in past.lost
        && id !in IdSet(Pending(old(disk)).issued) && id !in Named(past.before.files, manifestPath)
    {
      hide Spares, Own, Working, Fresh, JournalOf, RetiredOf;
      id := disk.created;
      r := Step();
      if !r.Done? {
        return;
      }
      CreateCredential(disk, mem, past, manifestPath);
      disk := Created(disk);
      past := past.(lost := past.lost + {id});
      r := Step();
    }

    /** Saves the id of a new credential; from then on recovery can revoke it. */
    method RecordId(id: Id, name: string) returns (r: Outcome)
      requires Issuing(name) && id in past.lost
      modifies this`disk, this`past, this`now, this`mem
      ensures Running()
      ensures disk == old(disk).(files := disk.files, links := disk.links, journal := disk.journal)
      ensures past == old(past).(foreign := past.foreign, lost := past.lost)
      ensures old(past).foreign <= past.foreign
      ensures past.lost == if r.Done? then old(past).lost - {id} else old(past).lost
      ensures mem == old(mem).(issued := old(mem).issued + [id])
      ensures SameFiles(disk.files, old(disk).files, past.foreign)
      ensures r.Done? ==> Ready() && IdSet(Pending(disk).issued) == IdSet(Pending(old(disk)).issued) + {id}
      ensures !r.Done? ==> Pending(disk).issuing == [name]
    {
      hide Spares, Own, Working, JournalOf, RetiredOf;
      RememberIssued(disk, mem, past, manifestPath, id);
      mem := mem.(issued := mem.issued + [id]);
      r := Step();
      if !r.Done? {
        return;
      }
      var j := Pending(disk);
      JournalIds(job, j, j.issued + [id], DropLabel(j.issuing, name), past.before.minted);
      RecordIssued(disk, mem, past, manifestPath, id, DropLabel(j.issuing, name));
      disk := Journaled(disk, j.(issued := j.issued + [id], issuing := DropLabel(j.issuing, name)));
      past := past.(lost := past.lost - {id});
    }

    /** Saves the label of a credential that will be created. */
    method AnnounceIssue(name: string) returns (r: Outcome)
      requires Ready()
      modifies this`disk, this`past, this`now
      ensures Running() && (r.Done? ==> Issuing(name))
      ensures disk == old(disk).(files := disk.files, links := disk.links, journal := disk.journal)
      ensures past == old(past).(foreign := past.foreign) && old(past).foreign <= past.foreign
      ensures SameFiles(disk.files, old(disk).files, past.foreign)
      ensures Pending(disk).issued == Pending(old(disk)).issued
    {
      hide Spares, Own, Working, JournalOf, RetiredOf;
      r := Step();
      if r.Done? {
        var j := Pending(disk);
        JournalIds(job, j, j.issued, j.issuing + [name], past.before.minted);
        LabelIssue(disk, mem, past, manifestPath, j.issuing + [name]);
        disk := Journaled(disk, j.(issuing := j.issuing + [name]));
      }
    }

    /** Creates a credential, its label journaled before and its id after. */
    method Issue(name: string) returns (r: Outcome, id: Id)
      requires Ready()
      modifies this`disk, this`past, this`now, this`mem
      ensures Running() && (r.Done? ==> Ready())
      ensures past == old(past).(foreign := past.foreign, lost := past.lost) && Continues(r)
      ensures SameFiles(disk.files, old(disk).files, past.foreign)
      ensures mem == old(mem).(issued := mem.issued)
      ensures disk.minted == old(disk).minted
      ensures r.Done? ==> id !in old(Known()) && Known() == old(Known()) + {id}
    {
      hide Spares, Own, Running, InSync;
      id := disk.created;
      r := AnnounceIssue(name);
      if !r.Done? {
        return;
      }
      r, id := Create(name);
      if r.Done? {
        r := RecordId(id, name);
      }
    }

    /** The credentials there were before and those the journal says were issued since. */
    ghost function Known(): set<Id>
      reads this`disk, this`past
    {
      Named(past.before.files, manifestPath) + IdSet(Pending(disk).issued)
    }

    ghost predicate Balanced()
      reads this
    {
      Books(mem.manifest.rows, mem.retired, disk.minted, Known())
    }

    /** From `m` on, memory changed for `item` only. */
    ghost predicate Progressed(m: Memory, item: Planned)
      reads this
    {
      ChangedFor(job, item, m, mem)
    }

    /** A step of the work on one item. */
    twostate predicate Works(r: Outcome)
      reads this
    {
      && Running() && Continues(r) && Get(disk.files, manifestPath) == Get(old(disk).files, manifestPath)
      && (r.Done? ==> Ready() && Balanced())
    }

    /** Moves the item's registration, if it has one, to the retired ones. */
    method Drop(item: Planned)
      requires Ready() && Balanced() && item.previous == Find(mem.manifest.rows, item.pick.key)
      requires item in job.items
      modifies this`mem
      ensures Ready() && Balanced()
      ensures mem == old(mem).(manifest := mem.manifest, retired := PushSome(old(mem).retired, item.previous))
      ensures Find(mem.manifest.rows, item.pick.key) == None
      ensures forall k :: k != item.pick.key ==> Find(mem.manifest.rows, k) == Find(old(mem).manifest.rows, k)
    {
      hide Spares, Own, Fresh, Timely, Working, Books, Find, Without;
      RetireOne(mem.manifest.rows, mem.retired, disk.minted, Known(), item.pick.key);
      BooksAreInMemory(disk, mem, past, manifestPath,
        mem.manifest.(rows := Without(mem.manifest.rows, item.pick.key)), PushSome(mem.retired, item.previous));
      mem := mem.(
        manifest := mem.manifest.(rows := Without(mem.manifest.rows, item.pick.key)),
        retired := PushSome(mem.retired, item.previous));
      assert item.previous.Some? ==> forall r :: r in mem.retired ==> r in old(mem).retired || r == item.previous.value;
    }

    /** Puts a registration with a credential that is new to the books in place of the item's old one. */
    method Register(item: Planned, row: Registration, ghost known: set<Id>)
      requires Ready() && item.previous == Find(mem.manifest.rows, item.pick.key) && row.key == item.pick.key
      requires item in job.items && row.credential !in known && disk.minted > 0
      requires Books(mem.manifest.rows, mem.retired, disk.minted - 1, known)
      requires row.file == CredentialFile(disk.minted - 1) && Known() == known + {row.credential}
      modifies this`mem
      ensures Ready() && Balanced()
      ensures mem == old(mem).(manifest := mem.manifest, retired := PushSome(old(mem).retired, item.previous))
      ensures Find(mem.manifest.rows, item.pick.key) == Some(row)
      ensures forall k :: k != item.pick.key ==> Find(mem.manifest.rows, k) == Find(old(mem).manifest.rows, k)
    {
      hide Spares, Own, Fresh, Timely, Working, Books, Find, Without;
      ReplaceOne(mem.manifest.rows, mem.retired, disk.minted - 1, known, row);
      BooksAreInMemory(disk, mem, past, manifestPath,
        mem.manifest.(rows := Without(mem.manifest.rows, item.pick.key) + [row]),
        PushSome(mem.retired, item.previous));
      mem := mem.(
        manifest := mem.manifest.(rows := Without(mem.manifest.rows, item.pick.key) + [row]),
        retired := PushSome(mem.retired, item.previous));
      assert item.previous.Some? ==> forall r :: r in mem.retired ==> r in old(mem).retired || r == item.previous.value;
    }

    /** Rewrites the entry or the credential file of a registration that is still ours. */
    method Rewrite(item: Planned, refresh: Refresh) returns (r: Outcome)
      requires Ready() && job.install && PlanHolds(job, item, past) && Balanced() && item in job.items
      requires item.previous.Some? && item.previous == Find(mem.manifest.rows, item.pick.key)
      modifies this`disk, this`past, this`now, this`mem
      ensures Running() && (r.Done? ==> Ready())
      ensures OnlyEffects(old(disk), disk, old(mem), mem, old(past), past)
      ensures Get(disk.files, manifestPath) == Get(old(disk).files, manifestPath)
      ensures r.Done? ==>
        && mem == old(mem).(writes := mem.writes)
        && RefreshWrites(job, item, refresh, item.previous.value.file, old(mem).writes, mem.writes)
    {
      hide Spares, Own, Running, Books;
      JobIsOurs();
      CredentialIsBusiness(item);
      r := Done;
      if refresh.entry.Some? {
        r := WriteEntry(item, Renewed(refresh.entry.value));
      }
      if r.Done? && refresh.secret.Some? {
        JobIsOurs();
        var file := item.previous.value.file;
        r := Write(file, refresh.secret.value, Get(disk.files, file));
      }
      JobIsOurs();
    }

    /** The credential file of an item's old registration has a name that was handed out. */
    lemma CredentialIsBusiness(item: Planned)
      requires Balanced() && item in job.items && item.previous.Some?
      requires item.previous == Find(mem.manifest.rows, item.pick.key)
      ensures
        var file := item.previous.value.file;
        && file.CredentialFile? && file.serial < disk.minted && IsBusiness(job, file, past.before.minted)
    {
      FindFinds(mem.manifest.rows, item.pick.key);
      var k :| 0 <= k < |job.items| && job.items[k] == item;
      assert FileOf(job.items[k], item.previous.value.file);
    }

    /** A refresh: same credential, new launcher or endpoint. */
    method RefreshOne(item: Planned, refresh: Refresh) returns (r: Outcome)
      requires Ready() && job.install && PlanHolds(job, item, past) && Balanced() && item in job.items
      requires item.previous.Some? && item.previous == Find(mem.manifest.rows, item.pick.key)
      requires item.pick.refresh == Some(refresh)
      modifies this`disk, this`past, this`now, this`mem
      ensures Works(r) && (r.Done? ==> Progressed(old(mem), item))
      ensures r.Done? ==>
        && mem.retired == old(mem).retired && mem.linked == old(mem).linked
        && Find(mem.manifest.rows, item.pick.key) ==
             Some(RefreshedRow(item.previous.value, refresh.secret, item.pick.links))
    {
      hide Spares, Own, Working, Timely, Find, Refreshed, RefreshWrites, JournalOf, RetiredOf;
      CredentialIsBusiness(item);
      r := Rewrite(item, refresh);
      if r.Done? {
        RefreshKeepsIds(mem.manifest.rows, item.pick.key, refresh.secret, item.pick.links, disk.minted);
        BooksAreInMemory(disk, mem, past, manifestPath,
          mem.manifest.(rows := Refreshed(mem.manifest.rows, item.pick.key, refresh.secret, item.pick.links)),
          mem.retired);
        mem := mem.(manifest := mem.manifest.(
          rows := Refreshed(mem.manifest.rows, item.pick.key, refresh.secret, item.pick.links)));
        RefreshedWrites(job, item, old(mem), mem);
      }
    }

    /** Creates a credential and writes it to a file with a new name. */
    method IssueToFile(name: string) returns (r: Outcome, id: Id, file: Path, secret: Text)
      requires Ready() && job.install
      modifies this`disk, this`past, this`now, this`mem
      ensures Running() && Continues(r)
      ensures Get(disk.files, manifestPath) == Get(old(disk).files, manifestPath)
      ensures r.Done? ==>
        && Ready()
        && disk.minted == old(disk).minted + 1 && file == CredentialFile(old(disk).minted)
        && mem == old(mem).(writes := old(mem).writes + [Written(file, None, secret)], issued := mem.issued)
        && id !in old(Known()) && Known() == old(Known()) + {id}
    {
      hide Spares, Own, Running, InSync;
      file := CredentialFile(disk.minted);
      secret := *;
      JobIsOurs();
      r, id := Issue(name);
      JobIsOurs();
      if r.Done? {
        Mint();
        r := Write(file, secret, None);
        JobIsOurs();
      }
    }

    /** Makes a new file name. */
    method Mint()
      requires Ready()
      modifies this`disk
      ensures Ready() && disk == old(disk).(minted := old(disk).minted + 1)
      ensures CredentialFile(old(disk).minted) !in disk.files && past.before.minted <= old(disk).minted
    {
      hide Working, SparesFile, SparesLink, Own;
      MintName(disk, mem, past, manifestPath);
      SparesMinting(script, past.before, Here(), Replaced(mem.writes), LinkSet(mem.linked + mem.removedLinks),
        disk.minted + 1, manifestPath);
      disk := disk.(minted := disk.minted + 1);
      OwnSameFiles(script, past.before, old(Here()), Here(), mem.writes, manifestPath);
    }

    /** Issues a credential and writes its file and the agent's entry. */
    method IssueAndEnter(item: Planned) returns (r: Outcome, id: Id, file: Path, secret: Text)
      requires Ready() && job.install && PlanHolds(job, item, past) && item in job.items
      modifies this`disk, this`past, this`now, this`mem
      ensures Running() && Continues(r)
      ensures Get(disk.files, manifestPath) == Get(old(disk).files, manifestPath)
      ensures r.Done? ==>
        var before := TextNow(old(mem).writes, item.pick.config, item.text);
        var after := editor(item.pick.key, Launch(id, file, secret), before);
        && Ready() && after.Some?
        && disk.minted == old(disk).minted + 1 && file == CredentialFile(old(disk).minted)
        && mem == old(mem).(
             writes := old(mem).writes +
               [Written(file, None, secret), Written(item.pick.config, before, after.value)],
             issued := mem.issued)
        && id !in old(Known()) && Known() == old(Known()) + {id}
    {
      hide Spares, Own, Running, InSync, LastWrite;
      JobIsOurs();
      r, id, file, secret := IssueToFile(item.pick.key);
      if !r.Done? {
        return;
      }
      LastWriteAppend(old(mem).writes, Written(file, None, secret), item.pick.config);
      r := WriteEntry(item, Launch(id, file, secret));
      JobIsOurs();
    }

    /** A new registration: a credential of its own in the manifest, the old one retired. */
    method RegisterNew(item: Planned) returns (r: Outcome)
      requires Ready() && job.install && PlanHolds(job, item, past) && Balanced() && item in job.items
      requires item.previous == Find(mem.manifest.rows, item.pick.key)
      requires item.pick.change && !Refreshes(item)
      modifies this`disk, this`past, this`now, this`mem
      ensures Works(r) && (r.Done? ==> Progressed(old(mem), item))
      ensures r.Done? ==>
        var now := Find(mem.manifest.rows, item.pick.key);
        && now.Some? && mem.linked == old(mem).linked
        && IsNew(now.value, item.pick, Named(past.before.files, manifestPath), past.before.minted)
        && LastWrite(mem.writes, now.value.file) == Some(now.value.digest.of)
        && mem.retired == PushSome(old(mem).retired, item.previous)
    {
      hide Spares, Own, Running, InSync, LastWrite, Find, Books, WritesFor;
      JobIsOurs();
      MintedGrows();
      ghost var known := Known();
      var id, file, secret;
      r, id, file, secret := IssueAndEnter(item);
      if r.Done? {
        var row := Registration(item.pick.key, item.pick.user, id, file, Hash(secret), item.pick.links);
        Register(item, row, known);
        ghost var before := TextNow(old(mem).writes, item.pick.config, item.text);
        EnteredWrites(job, item, old(mem), mem, row,
          editor(item.pick.key, Launch(id, file, secret), before).value);
        SecretIsWritten(old(mem).writes, mem.writes, file, secret);
      }
    }

    lemma MintedGrows()
      requires Running()
      ensures past.before.minted <= disk.minted
    {
    }

    /** Refreshes, makes anew or leaves alone the item's registration. */
    method SettleOne(item: Planned) returns (r: Outcome)
      requires Ready() && job.install && PlanHolds(job, item, past) && Balanced() && item in job.items
      requires item.previous == Find(mem.manifest.rows, item.pick.key)
      modifies this`disk, this`past, this`now, this`mem
      ensures Works(r) && (r.Done? ==> Progressed(old(mem), item))
      ensures r.Done? ==>
        && mem.linked == old(mem).linked
        && Settles(item, true, Find(mem.manifest.rows, item.pick.key),
             Named(past.before.files, manifestPath), past.before.minted)
        && (Replaces(item, true) ==> item.previous.value in mem.retired)
        && SecretWritten(job, item, mem)
    {
      hide Spares, Own, Running, InSync, Books, Find;
      JobIsOurs();
      if Refreshes(item) {
        CredentialIsBusiness(item);
        r := RefreshOne(item, item.pick.refresh.value);
        if r.Done? {
          RefreshedSecret(job, item, old(mem), mem);
        }
      } else if item.pick.change {
        r := RegisterNew(item);
      } else {
        NoWrites(job, item, mem, mem);
        r := Done;
      }
    }

    ghost predicate Has(item: Planned)
      reads this
    {
      Achieved(job, item, mem, past)
    }

    lemma LinksAreBusiness(item: Planned)
      requires item in job.items
      ensures forall l :: LinkOf(item, l) ==> IsBusinessLink(job, l)
    {
      var k :| 0 <= k < |job.items| && job.items[k] == item;
      assert forall l :: LinkOf(item, l) ==> LinkOf(job.items[k], l);
    }

    method InstallOne(item: Planned) returns (r: Outcome)
      requires Ready() && job.install && PlanHolds(job, item, past) && Balanced() && item in job.items
      requires item.previous == Find(mem.manifest.rows, item.pick.key)
      modifies this`disk, this`past, this`now, this`mem
      ensures Works(r) && (r.Done? ==> Progressed(old(mem), item) && Has(item))
    {
      hide Spares, Own, Running, InSync, Books, Find, Settles, SecretWritten, ChangedFor, IsLinked, IsBusinessLink;
      JobIsOurs();
      LinksAreBusiness(item);
      assert forall l :: l in item.pick.links ==> LinkOf(item, l);
      r := LinkMissing(item.pick.links);
      JobIsOurs();
      if !r.Done? {
        return;
      }
      ghost var m, p := mem, past;
      r := SettleOne(item);
      if r.Done? {
        ChangedBesideLinks(job, item, old(mem), m, mem);
        LinkedStays(item.pick.links, m, mem, p, past);
      }
    }

    /** Takes the item's entry out of its config file, unless it is retained, and its links away. */
    method TakeOut(item: Planned) returns (r: Outcome)
      requires Ready() && !job.install && PlanHolds(job, item, past) && item.previous.Some? && item in job.items
      modifies this`disk, this`past, this`now, this`mem
      ensures Running() && (r.Done? ==> Ready())
      ensures OnlyEffects(old(disk), disk, old(mem), mem, old(past), past)
      ensures Get(disk.files, manifestPath) == Get(old(disk).files, manifestPath)
      ensures r.Done? ==>
        var before := TextNow(old(mem).writes, item.pick.config, item.text);
        var after := editor(item.pick.key, Removed, before);
        && AllUnlinked(item.previous.value.links, mem, past)
        && mem == old(mem).(writes := mem.writes, removedLinks := mem.removedLinks)
        && (if item.pick.change && !item.pick.retainedEntry
            then after.Some? && mem.writes == old(mem).writes + [Written(item.pick.config, before, after.value)]
            else mem.writes == old(mem).writes)
    {
      hide Spares, Own, Running, InSync, IsUnlinked, IsBusinessLink;
      JobIsOurs();
      LinksAreBusiness(item);
      assert forall l :: l in item.previous.value.links ==> LinkOf(item, l);
      r := Done;
      if item.pick.change && !item.pick.retainedEntry {
        r := WriteEntry(item, Removed);
      }
      JobIsOurs();
      if r.Done? {
        r := UnlinkOwned(item.previous.value.links);
        JobIsOurs();
      }
    }

    method UninstallOne(item: Planned) returns (r: Outcome)
      requires Ready() && !job.install && PlanHolds(job, item, past) && Balanced() && item in job.items
      requires item.previous == Find(mem.manifest.rows, item.pick.key)
      modifies this`disk, this`past, this`now, this`mem
      ensures Works(r) && (r.Done? ==> Progressed(old(mem), item) && Has(item))
    {
      hide Spares, Own, Running, InSync, Books, Find, IsUnlinked, WritesFor, LastWrite;
      JobIsOurs();
      r := Done;
      if item.previous.Some? {
        r := TakeOut(item);
        if !r.Done? {
          return;
        }
        ghost var m := mem;
        Drop(item);
        UnlinkedStays(item.previous.value.links, m, mem, past);
        ghost var before := TextNow(old(mem).writes, item.pick.config, item.text);
        if item.pick.change && !item.pick.retainedEntry {
          EditedWrites(job, item, old(mem), mem, Removed, editor(item.pick.key, Removed, before).value);
        } else {
          NoWrites(job, item, old(mem), mem);
        }
      } else {
        NoWrites(job, item, mem, mem);
      }
    }

    /** The items still to do: their plans agree with the manifest as it is now. */
    ghost predicate Ahead(i: nat)
      reads this
    {
      && (forall k :: 0 <= k < |job.items| ==> PlanHolds(job, job.items[k], past))
      && (forall k :: i <= k < |job.items| ==>
            job.items[k].previous == Find(mem.manifest.rows, job.items[k].pick.key))
      && (forall k, l :: 0 <= k < l < |job.items| ==> job.items[k].pick.key != job.items[l].pick.key)
    }

    /** Applies item `i`, which is real here and ghost in the job; what was done for the earlier ones lasts. */
    method ApplyOne(item: Planned, install: bool, ghost i: nat) returns (r: Outcome)
      requires Ready() && Balanced() && i < |job.items| && item == job.items[i] && install == job.install
      requires Ahead(i) && DoneUpTo(job, i, mem, past)
      modifies this`disk, this`past, this`now, this`mem
      ensures Works(r)
      ensures r.Done? ==> Ahead(i + 1) && DoneUpTo(job, i + 1, mem, past)
      ensures r.Done? ==> OthersKept(job, old(mem).manifest.rows, mem.manifest.rows)
    {
      hide Spares, Own, Running, InSync, Find, DoneUpTo, Achieved, OthersKept;
      if install {
        r := InstallOne(item);
      } else {
        r := UninstallOne(item);
      }
      if r.Done? {
        OneMoreDone(job, i, old(mem), mem, old(past), past, disk.minted);
      }
    }

    /** Applies every planned item. */
    method ApplyAll(planned: seq<Planned>, install: bool) returns (r: Outcome)
      requires Ready() && Balanced() && planned == job.items && install == job.install
      requires Ahead(0) && DoneUpTo(job, 0, mem, past)
      modifies this`disk, this`past, this`now, this`mem
      ensures Works(r)
      ensures r.Done? ==> Ahead(|job.items|) && DoneUpTo(job, |job.items|, mem, past)
      ensures r.Done? ==> OthersKept(job, old(mem).manifest.rows, mem.manifest.rows)
    {
      hide Spares, Own, Running, InSync, Books, Find, DoneUpTo, Achieved;
      r := Done;
      for i := 0 to |planned|
        invariant Works(Done) && Ahead(i) && DoneUpTo(job, i, mem, past)
        invariant OthersKept(job, old(mem).manifest.rows, mem.manifest.rows)
      {
        r := ApplyOne(planned[i], install, i);
        if !r.Done? {
          return;
        }
      }
      r := Done;
    }

    /** Nothing was done yet. */
    ghost predicate Starting()
      reads this
    {
      && Ready() && disk.journal.None?
      && mem.writes == [] && mem.linked == [] && mem.removedLinks == [] && mem.retired == []
    }

    /** Reads the manifest and plans every pick; planning may refuse before any effect. */
    method Plan(request: Request) returns (r: Outcome, planned: seq<Planned>)
      requires Starting() && WellFormed(request, manifestPath, skillFile)
      modifies this`disk, this`past, this`now, this`mem, this`job
      ensures Starting() && Works(r)
      ensures job.items == planned && job.install == request.install && Ahead(0)
      ensures mem.manifest.rows == RowsOf(past.before.files, manifestPath)
      ensures PlannedFor(request, job, RowsOf(past.before.files, manifestPath))
    {
      hide Spares, Own, Timely, Find, Working, PlanAll, WellFormed, PlanHolds, PlannedFor;
      r := Step();
      FilesAreAsBefore();
      var text := Get(disk.files, manifestPath);
      var manifest := if text.Some? && text.value.ManifestText? then text.value.manifest else Manifest(None, []);
      BooksAreInMemory(disk, mem, past, manifestPath, manifest, mem.retired);
      mem := mem.(manifest := manifest);
      planned := PlanAll(request.picks, manifest.rows, disk.files);
      job := Job(request.install, planned, editor, manifestPath, skillFile);
      PlansHold(request, job, manifest.rows, disk.files, past);
    }

    /** With no journal and nothing written yet all is as it was when the operation began. */
    lemma FilesAreAsBefore()
      requires Running() && disk.journal.None? && mem.writes == []
      ensures SameFiles(disk.files, past.before.files, past.foreign)
      ensures Get(disk.files, manifestPath) == Get(past.before.files, manifestPath)
      ensures GoodManifest(disk.files, manifestPath, disk.minted)
    {
      InFlightIsConsistent(disk, past, manifestPath);
      ManifestIsKnown(disk, Pending(disk), past, manifestPath);
    }

    /** Writes the skill text of a user-scope install and notes its hash in the manifest. */
    method WriteSkill() returns (r: Outcome)
      requires Ready() && job.install && Balanced()
      modifies this`disk, this`past, this`now, this`mem
      ensures Works(r)
      ensures r.Done? ==>
        && mem.manifest.rows == old(mem).manifest.rows && mem.manifest.skill == Some(Hash(skillText))
        && mem == old(mem).(writes := mem.writes, manifest := mem.manifest)
        && |mem.writes| == |old(mem).writes| + 1 && old(mem).writes <= mem.writes
        && mem.writes[|old(mem).writes|].file == skillFile && mem.writes[|old(mem).writes|].after == skillText
    {
      hide Spares, Own, Working, Timely, Books, JournalOf, RetiredOf;
      r := Write(skillFile, skillText, Get(disk.files, skillFile));
      if r.Done? {
        BooksAreInMemory(disk, mem, past, manifestPath, mem.manifest.(skill := Some(Hash(skillText))), mem.retired);
        mem := mem.(manifest := mem.manifest.(skill := Some(Hash(skillText))));
      }
    }

    /** Every edit of an operation up to the manifest write. */
    method Edit(request: Request) returns (r: Outcome, touchesUser: bool)
      requires Starting() && WellFormed(request, manifestPath, skillFile)
      modifies this`disk, this`past, this`now, this`mem, this`job
      ensures Works(r) && PlannedFor(request, job, RowsOf(past.before.files, manifestPath))
      ensures job.install == request.install
      ensures r.Done? ==>
        && Ahead(|job.items|) && DoneUpTo(job, |job.items|, mem, past)
        && OthersKept(job, RowsOf(past.before.files, manifestPath), mem.manifest.rows)
    {
      hide Spares, Running, InSync, Books, DoneUpTo, PlannedFor, PlanHolds;
      touchesUser := false;
      var planned;
      r, planned := Plan(request);
      if !r.Done? {
        return;
      }
      touchesUser := exists item :: item in planned && item.pick.user && (request.install || item.previous.Some?);
      ghost var m, p := mem, past;
      if request.install && touchesUser {
        r := WriteSkill();
        if !r.Done? {
          return;
        }
        PlansLast(m, p);
      }
      JobIsOurs();
      NothingDone(job, mem, past);
      r := ApplyAll(planned, request.install);
    }

    lemma PlansLast(m: Memory, p: Past)
      requires mem.manifest.rows == m.manifest.rows && past.before == p.before && p.foreign <= past.foreign
      requires forall k :: 0 <= k < |job.items| ==> PlanHolds(job, job.items[k], p)
      ensures forall k :: 0 <= k < |job.items| ==> PlanHolds(job, job.items[k], past)
    {
      forall k | 0 <= k < |job.items| ensures PlanHolds(job, job.items[k], past) {
        assert PlanHolds(job, job.items[k], p);
      }
    }

    /** The last write an operation can still take back. */
    method WriteManifest(original: Option<Text>) returns (r: Outcome)
      requires Ready() && Balanced() && original == Get(past.before.files, manifestPath)
      requires Get(disk.files, manifestPath) == original
      modifies this`disk, this`past, this`now, this`mem
      ensures Running() && Continues(r)
      ensures r.Done? ==>
        && Ready() && Balanced() && disk.journal.Some?
        && Get(disk.files, manifestPath) == Some(ManifestText(mem.manifest))
        && mem == old(mem).(
             writes := old(mem).writes + [Written(manifestPath, original, ManifestText(mem.manifest))])
    {
      hide Spares, Working, Timely, JournalOf, RetiredOf;
      r := Write(manifestPath, ManifestText(mem.manifest), original);
      if r.Done? {
        r := Step();
      }
    }

    /** What memory says was done for every item, and for nobody else, is so on disk. */
    lemma AllDoneIsEffected(request: Request)
      requires Ready() && PlannedFor(request, job, RowsOf(past.before.files, manifestPath))
      requires DoneUpTo(job, |job.items|, mem, past) && Ahead(|job.items|)
      requires OthersKept(job, RowsOf(past.before.files, manifestPath), mem.manifest.rows)
      requires Get(disk.files, manifestPath) == Some(ManifestText(mem.manifest))
      ensures Effected(request, job, past.before, disk.files, disk.links, past.foreign)
    {
      hide Spares, Working, Timely, Achieved, Accomplished, ConfigEdited, EntryMade, ConfigDone;
      LinksOneWay();
      forall k | 0 <= k < |job.items|
        ensures Accomplished(job, job.items[k], past.before, disk.files, disk.links, past.foreign)
      {
        AchievedIsAccomplished(job, job.items[k], disk, mem, past);
      }
      forall k: nat | k < |job.items| ensures ConfigEdited(job, k, past.before.files, disk.files, past.foreign) {
        assert PlanHolds(job, job.items[k], past);
        DoneIsEdited(job, k, disk, mem, past);
      }
      OnlyNotedChanged(job, disk, mem, past);
    }

    /** An install only makes links, an uninstall only removes them. */
    lemma LinksOneWay()
      requires Running()
      ensures if job.install then mem.removedLinks == [] else mem.linked == []
    {
    }

    /** Every edit and the manifest write: all that a failure takes back. */
    method EditAndWrite(request: Request) returns (r: Outcome, touchesUser: bool)
      requires Starting() && WellFormed(request, manifestPath, skillFile)
      modifies this`disk, this`past, this`now, this`mem, this`job
      ensures Running() && Continues(r) && PlannedFor(request, job, RowsOf(past.before.files, manifestPath))
      ensures job.install == request.install
      ensures r.Done? ==>
        && Ready() && Balanced() && disk.journal.Some?
        && Get(disk.files, manifestPath) == Some(ManifestText(mem.manifest))
        && Ahead(|job.items|) && DoneUpTo(job, |job.items|, mem, past)
        && Effected(request, job, past.before, disk.files, disk.links, past.foreign)
    {
      hide Spares, Running, InSync, DoneUpTo, PlannedFor, PlanHolds, OthersKept, Effected;
      FilesAreAsBefore();
      var original := Get(disk.files, manifestPath);
      r, touchesUser := Edit(request);
      if !r.Done? {
        return;
      }
      ghost var m, p := mem, past;
      r := WriteManifest(original);
      if r.Done? {
        JobIsOurs();
        PlansLast(m, p);
        ManifestLasts(job, m, mem, p, past, Written(manifestPath, original, ManifestText(mem.manifest)), disk.minted);
        AllDoneIsEffected(request);
      }
    }

    /** Every edit, then the manifest write, then the commit point. */
    method Commit(request: Request) returns (r: Outcome, touchesUser: bool)
      requires Starting() && WellFormed(request, manifestPath, skillFile)
      modifies this`disk, this`past, this`now, this`mem, this`job
      ensures past.before == old(past).before && old(past).foreign <= past.foreign
      ensures old(disk).created <= disk.created && Undertakes(request)
      ensures !r.Done? ==> Running() && Continues(r)
      ensures r.Done? ==>
        && Valid() && AtCommit() && Committed(touchesUser) && Promised(request)
        && LeavesOthers() && past.lost == old(past).lost
    {
      hide Spares, Working, Books, DoneUpTo, PlannedFor, PlanHolds, Effected, Achieved, Replaced, LinkSet, Business,
        BusinessLinks, IsConfig, Retires, ConfigsHeld, Own;
      r, touchesUser := EditAndWrite(request);
      if !r.Done? {
        return;
      }
      var dropSkill := touchesUser && !(exists row :: row in mem.manifest.rows && row.user);
      var cleanup :=
        if dropSkill && mem.manifest.skill.Some? then [Cleanup(skillFile, mem.manifest.skill.value)] else [];
      CommitIsConsistent(disk, mem, past, manifestPath, cleanup, now);
      var j := disk.journal.value.(retired := Retire(mem.retired), cleanup := cleanup, committed := true);
      AllAreRetired(j);
      OthersSoFar();
      AllHeld();
      past := past.(committed := Here());
      disk := disk.(journal := Some(j));
    }

    lemma AllAreRetired(j: Journal)
      requires Running() && Balanced() && Ahead(|job.items|) && DoneUpTo(job, |job.items|, mem, past)
      requires j.retired == Retire(mem.retired) && forall c :: c in j.cleanup ==> c.file == skillFile
      ensures Retires(job, mem.manifest.rows, j)
    {
      hide Spares, Working, Timely, Books, Achieved, ConfigDone, EntryMade;
      forall k | 0 <= k < |job.items| ensures IsConfig(job, job.items[k].pick.config) {
        assert PlanHolds(job, job.items[k], past);
      }
      RetiredAsNoted(job, mem, past, disk.minted, Known(), j);
    }

    lemma AllHeld()
      requires Running() && Ahead(|job.items|) && DoneUpTo(job, |job.items|, mem, past)
      ensures ConfigsHeld(job, mem.manifest.rows, script, past.before, Here())
    {
      hide Spares, Own, Working, Timely, DoneUpTo;
      forall k: nat | k < |job.items|
        ensures HeldConfig(job, mem.manifest.rows, script, past.before, Here(), job.items[k].pick.config)
      {
        assert PlanHolds(job, job.items[k], past);
        OwnIsHeld(job, script, past.before, Here(), mem, past, job.items[k].pick.config);
      }
    }

    /** What the request is about: the picks, planned over the registrations there were before. */
    ghost predicate Undertakes(request: Request)
      reads this`past, this`job
    {
      && job == Job(request.install, job.items, editor, manifestPath, skillFile)
      && (job.items == [] || PlannedFor(request, job, RowsOf(past.before.files, manifestPath)))
    }

    /**
     Since the operation began, files and links that are none of its business are exactly as other
     programs alone leave them, also where those edited them; and no link of theirs was changed.
     */
    ghost predicate LeavesOthers()
      reads this`disk, this`past, this`now, this`job
    {
      Spares(script, past.before, Here(), Business(job, past.before.minted), BusinessLinks(job), manifestPath)
    }

    /** A running operation replaced only texts that it had read, in files that are its business. */
    lemma OthersSoFar()
      requires Running()
      ensures LeavesOthers()
    {
      hide Spares, SparesFile, SparesLink;
      CanRollBack(disk, mem, past, manifestPath);
      MemoryIsBusiness(job, Pending(disk), mem, past.before.minted);
      SparesMore(script, past.before, Here(), Replaced(mem.writes), LinkSet(mem.linked + mem.removedLinks),
        Business(job, past.before.minted), BusinessLinks(job), manifestPath);
    }

    ghost predicate AtCommit()
      reads this
    {
      disk.files == past.committed.files && disk.links == past.committed.links
    }

    /** The journal on disk is the committed one of the operation in memory. */
    ghost predicate Committed(touchesUser: bool)
      reads this
    {
      && disk.journal.Some? && disk.journal.value.committed
      && disk.journal.value.retired == Retire(mem.retired)
      && Get(past.committed.files, manifestPath) == Some(ManifestText(mem.manifest))
      && (touchesUser && !(exists row :: row in mem.manifest.rows && row.user) && mem.manifest.skill.Some? ==>
            Cleanup(skillFile, mem.manifest.skill.value) in disk.journal.value.cleanup)
    }

    /** The operation was committed: once it is finished, the request is fulfilled. */
    ghost predicate Promised(request: Request)
      reads this`disk, this`past, this`job, this`now
    {
      && job == Job(request.install, job.items, editor, manifestPath, skillFile)
      && disk.journal.Some? && disk.journal.value.committed
      && Retires(job, RowsOf(past.committed.files, manifestPath), disk.journal.value)
      && Effected(request, job, past.before, past.committed.files, past.committed.links, past.foreign)
      && ConfigsHeld(job, RowsOf(past.committed.files, manifestPath), script, past.before, Here())
    }

    /**
     The request is fulfilled: its items are carried out over the registrations and configs there
     were before, everything else is as it was, configs that others edited meanwhile keep what they
     wrote under the items' edits, and what the request replaced or removed is not live.
     */
    ghost predicate Fulfilled(request: Request)
      reads this`disk, this`past, this`job, this`now
    {
      && job == Job(request.install, job.items, editor, manifestPath, skillFile)
      && Effected(request, job, past.before, disk.files, disk.links, past.foreign)
      && ConfigsHeld(job, RowsOf(disk.files, manifestPath), script, past.before, Here())
      && GivenUp(job, disk.live)
    }

    /** The files of the finished operation that are gone still held the text to remove. */
    twostate predicate RemovedOnly(j: Journal)
      reads this`disk, this`past
    {
      RemovedFrom(old(disk).files, disk.files, j, manifestPath, past.foreign)
    }

    /** Best effort: removes what the committed manifest no longer names. */
    method CleanupCommitted(touchesUser: bool) returns (r: Outcome)
      requires Valid() && Committed(touchesUser)
      modifies this`disk, this`past, this`now
      ensures Valid() && Committed(touchesUser) && Undoes()
      ensures RemovedOnly(disk.journal.value) && Spared(ToRemove(disk.journal.value), iset{})
      ensures !r.Threw?
    {
      hide Spares, Consistent, Timely, ToRemove, RemovedFrom;
      ghost var j, marks := disk.journal.value, ToRemove(disk.journal.value);
      r := RemoveRetired(touchesUser);
      if r.Died? {
        return;
      }
      if touchesUser && !(exists row :: row in mem.manifest.rows && row.user) && mem.manifest.skill.Some? {
        ghost var a, p := Here(), past;
        r := RemoveSkill(touchesUser);
        SparesJoin(script, old(Here()), a, Here(), marks, iset{}, manifestPath);
        RemovedJoin(old(disk).files, a.files, disk.files, j, manifestPath, p.foreign, past.foreign);
        if r.Died? {
          return;
        }
      }
      if mem.manifest.rows == [] {
        ghost var a, p := Here(), past;
        r := RemoveManifest(touchesUser);
        SparesThen(script, old(Here()), a, Here(), marks, iset{}, iset{}, iset{}, manifestPath);
        RemovedJoin(old(disk).files, a.files, disk.files, j, manifestPath, p.foreign, past.foreign);
      }
      r := if r.Died? then Died else Done;
    }

    /** Removes the skill text where it is unchanged. */
    method RemoveSkill(touchesUser: bool) returns (r: Outcome)
      requires Valid() && Committed(touchesUser)
      requires touchesUser && !(exists row :: row in mem.manifest.rows && row.user) && mem.manifest.skill.Some?
      modifies this`disk, this`past, this`now
      ensures Valid() && Committed(touchesUser) && Undoes()
      ensures RemovedOnly(disk.journal.value) && Spared(ToRemove(disk.journal.value), iset{})
    {
      hide Spares, Consistent, Timely, ToRemove, RemovedFrom;
      ghost var j, step := disk.journal.value, iset{Mark(skillFile, Some(mem.manifest.skill.value.of))};
      RemovalMark(j);
      r := RemoveIfUnchanged(skillFile, mem.manifest.skill.value);
      SparesMore(script, old(Here()), Here(), step, iset{}, ToRemove(j), iset{}, manifestPath);
      RemovedOne(old(disk).files, disk.files, j, manifestPath, past.foreign, skillFile);
    }

    /** Removes a manifest that names no registration. */
    method RemoveManifest(ghost touchesUser: bool) returns (r: Outcome)
      requires Valid() && Committed(touchesUser) && mem.manifest.rows == []
      modifies this`disk, this`past, this`now
      ensures Valid() && Committed(touchesUser) && Undoes()
      ensures RemovedOnly(disk.journal.value) && OnlyFile(manifestPath) && Spared(iset{}, iset{})
    {
      hide Spares, RemovedFrom;
      FinishingKeepsRows(disk, disk.journal.value, past, manifestPath);
      r := Pause();
      ghost var a := Here();
      if r.Done? && manifestPath in disk.files {
        RemoveOne(disk, past, manifestPath, manifestPath);
        disk := disk.(files := disk.files - {manifestPath});
      }
      SparesFileChange(script, old(Here()), a, Here(), manifestPath, iset{}, iset{}, manifestPath);
      RemovedOne(old(disk).files, disk.files, disk.journal.value, manifestPath, past.foreign, manifestPath);
    }

    /** Removes the credential files of the retired registrations where they are unchanged. */
    method RemoveRetired(ghost touchesUser: bool) returns (r: Outcome)
      requires Valid() && Committed(touchesUser)
      modifies this`disk, this`past, this`now
      ensures Valid() && Committed(touchesUser) && Undoes()
      ensures RemovedOnly(disk.journal.value) && Spared(ToRemove(disk.journal.value), iset{})
      ensures !r.Threw?
    {
      hide Spares, Consistent, Timely, ToRemove, RemovedFrom;
      ghost var j, marks := disk.journal.value, ToRemove(disk.journal.value);
      RemovalMark(j);
      SparesNow(script, Here(), marks, iset{}, manifestPath);
      RemovedOne(disk.files, disk.files, j, manifestPath, past.foreign, manifestPath);
      for i := 0 to |mem.retired|
        invariant Valid() && Committed(touchesUser) && Undoes()
        invariant RemovedOnly(j) && Spared(marks, iset{})
      {
        ghost var a, p, item := Here(), past, j.retired[i];
        assert item in j.retired;
        RetiredIsRevocable(disk, past, manifestPath, item);
        r := RemoveIfUnchanged(mem.retired[i].file, mem.retired[i].digest);
        SparesThen(script, old(Here()), a, Here(), marks, iset{},
          iset{Mark(item.file, Some(item.digest.of))}, iset{}, manifestPath);
        RemovedOne(a.files, disk.files, j, manifestPath, past.foreign, item.file);
        RemovedJoin(old(disk).files, a.files, disk.files, j, manifestPath, p.foreign, past.foreign);
        if r.Died? {
          return;
        }
      }
      r := Done;
    }

    /** Revokes the retired credentials, naming those that could not be revoked. */
    method RevokeRetired() returns (r: Outcome, failed: bool)
      requires Valid() && disk.journal.Some? && disk.journal.value.committed
      modifies this`disk, this`past, this`now
      ensures Valid() && disk.journal == old(disk).journal && Recovers() && Spared(iset{}, iset{})
      ensures r.Done? && !failed ==>
        forall item :: item in disk.journal.value.retired ==> item.id !in disk.live
    {
      hide Spares, Consistent, Timely;
      var retired := disk.journal.value.retired;
      failed := false;
      SparesNow(script, Here(), iset{}, iset{}, manifestPath);
      for i := 0 to |retired|
        invariant Valid() && disk.journal == old(disk).journal && Recovers() && Spared(iset{}, iset{})
        invariant !failed ==> forall k :: 0 <= k < i ==> retired[k].id !in disk.live
      {
        assert retired[i] in retired;
        RetiredIsRevocable(disk, past, manifestPath, retired[i]);
        ghost var a := Here();
        r := Revoke(retired[i].id);
        SparesJoin(script, old(Here()), a, Here(), iset{}, iset{}, manifestPath);
        if r.Died? {
          return;
        }
        failed := failed || r.Threw?;
      }
      r := Done;
    }

    /** After the commit point: cleanup, revocation, and the end of the journal. */
    method FinishCommitted(touchesUser: bool) returns (r: Outcome)
      requires Valid() && Committed(touchesUser)
      modifies this`disk, this`past, this`now
      ensures Valid() && Recovers() && Spared(ToRemove(old(disk).journal.value), iset{})
      ensures !r.Done? ==> disk.journal == old(disk).journal
      ensures r.Done? ==>
        && disk.journal.None? && AsCommitted(disk, old(disk).journal.value, past, manifestPath)
        && RowsOf(disk.files, manifestPath) == RowsOf(past.committed.files, manifestPath)
        && (forall item :: item in old(disk).journal.value.retired ==> item.id !in disk.live)
    {
      hide Spares, ToRemove;
      ghost var marks := ToRemove(disk.journal.value);
      r := CleanupCommitted(touchesUser);
      if !r.Done? {
        return;
      }
      var failed;
      ghost var a := Here();
      r, failed := RevokeRetired();
      SparesThen(script, old(Here()), a, Here(), marks, iset{}, iset{}, iset{}, manifestPath);
      if !r.Done? {
        return;
      }
      if failed {
        return Threw;
      }
      a := Here();
      r := Pause();
      SparesThen(script, old(Here()), a, Here(), marks, iset{}, iset{}, iset{}, manifestPath);
      if !r.Done? {
        return;
      }
      FinishingKeepsRows(disk, disk.journal.value, past, manifestPath);
      ForgetFinished(disk, past, manifestPath);
      disk := disk.(journal := None);
    }

    /** The state a new operation goes back to if it fails. */
    ghost method Begin(request: Request)
      requires Valid() && disk.journal.None?
      modifies this`past, this`job
      ensures Valid() && AsBefore(disk, past) && past.lost == old(past).lost
      ensures past.before == Here() && past.foreign == {}
      ensures job == Job(request.install, [], editor, manifestPath, skillFile)
    {
      past := past.(before := Here(), foreign := {});
      job := Job(request.install, [], editor, manifestPath, skillFile);
    }

    /** A committed operation is finished, or stays committed for recovery to finish. */
    method Finish(request: Request, touchesUser: bool) returns (r: Outcome)
      requires Valid() && Committed(touchesUser) && Promised(request) && LeavesOthers()
      modifies this`disk, this`past, this`now
      ensures Valid() && Recovers() && LeavesOthers()
      ensures if r.Done? then disk.journal.None? && Fulfilled(request) else Promised(request)
    {
      hide Spares, Consistent, Effected, Retires, ToRemove, Business, BusinessLinks, ConfigsHeld;
      ghost var j, foreign, a := disk.journal.value, past.foreign, Here();
      r := FinishCommitted(touchesUser);
      FinishLeavesOthers(request, a, j);
      RetiringKeepsConfigs(job, RowsOf(past.committed.files, manifestPath), j, script, past.before, a, Here());
      if r.Done? {
        FinishedIsEffected(request, job, disk, j, past, foreign);
      } else {
        PromiseLasts(request, job, past.before, past.committed, foreign, past.foreign);
      }
    }

    /** Finishing removes only files that are the job's business. */
    lemma FinishLeavesOthers(request: Request, a: Snapshot, j: Journal)
      requires Retires(job, RowsOf(past.committed.files, manifestPath), j)
      requires Spares(script, past.before, a, Business(job, past.before.minted), BusinessLinks(job), manifestPath)
      requires Spares(script, a, Here(), ToRemove(j), iset{}, manifestPath)
      ensures LeavesOthers()
    {
      hide Spares, Retires, ToRemove, Business;
      RetiringIsBusiness(job, RowsOf(past.committed.files, manifestPath), j, past.before.minted);
      SparesThen(script, past.before, a, Here(), Business(job, past.before.minted), BusinessLinks(job),
        ToRemove(j), iset{}, manifestPath);
    }

    /** Nor does taking back what the job's journal names touch anything else. */
    lemma UndoLeavesOthers(a: Snapshot, marks: iset<Mark>, links: iset<Path>)
      requires marks <= Business(job, past.before.minted) && links <= BusinessLinks(job)
      requires Spares(script, past.before, a, Business(job, past.before.minted), BusinessLinks(job), manifestPath)
      requires Spares(script, a, Here(), marks, links, manifestPath)
      ensures LeavesOthers()
    {
      hide Spares, Business, BusinessLinks;
      SparesThen(script, past.before, a, Here(), Business(job, past.before.minted), BusinessLinks(job),
        marks, links, manifestPath);
    }

    /** A failed operation is rolled back, or its journal stays for recovery. */
    method GiveUp() returns (r: Outcome)
      requires Running()
      modifies this`disk, this`past, this`now
      ensures Valid() && !r.Done? && Recovers() && LeavesOthers()
      ensures disk.journal.None? ==> AsBefore(disk, past)
      ensures disk.journal.Some? ==> disk.journal == old(disk).journal && Unfinished()
    {
      hide Spares, Working, Timely, Consistent, AsBefore, Business, BusinessLinks, Replaced, Left, LinkSet, JournalOf;
      ghost var a := Here();
      OthersSoFar();
      CanRollBack(disk, mem, past, manifestPath);
      MemoryIsBusiness(job, Pending(disk), mem, past.before.minted);
      r := Rollback();
      UndoLeavesOthers(a, Left(Records(mem.writes)), LinkSet(mem.linked + mem.removedLinks));
    }

    /** An uncommitted journal of the job is pending. */
    ghost predicate Unfinished()
      reads this`disk, this`past, this`job
    {
      disk.journal.Some? && !disk.journal.value.committed && JournalOf(job, disk.journal.value, past.before.minted)
    }

    /** It dies: the disk is left as it is, with the journal if one was saved. */
    lemma LeftBehind()
      requires Running()
      ensures Valid() && LeavesOthers()
      ensures disk.journal.None? ==> AsBefore(disk, past)
      ensures disk.journal.Some? ==> Unfinished()
    {
      hide Spares, Timely, Working;
      OthersSoFar();
      CanRollBack(disk, mem, past, manifestPath);
      CanTakeBack(disk, past, manifestPath);
      NothingSaved(disk, disk, mem, past, past, manifestPath);
    }

    /** A failure loses at most the credential created last, and only if the journal kept its label. */
    twostate predicate Loses(r: Outcome)
      reads this
    {
      && old(disk).created <= disk.created
      && past.lost <= old(past).lost + (if r.Done? then {} else Newest(old(disk).created, disk.created))
      && (disk.journal.Some? && !(past.lost <= old(past).lost) ==> disk.journal.value.issuing != [])
    }

    /** One install or uninstall on a state with no journal pending. */
    method Operate(request: Request) returns (r: Outcome)
      requires Valid() && WellFormed(request, manifestPath, skillFile) && disk.journal.None? && AsBefore(disk, past)
      requires Spares(script, past.before, Here(), iset{}, iset{}, manifestPath)
      requires job == Job(request.install, [], editor, manifestPath, skillFile)
      modifies this`disk, this`past, this`now, this`mem, this`job
      ensures Valid() && past.before == old(past).before && Loses(r)
      ensures Undertakes(request) && LeavesOthers()
      ensures r.Done? ==> disk.journal.None? && Fulfilled(request)
      ensures !r.Done? && disk.journal.None? ==> AsBefore(disk, past)
      ensures disk.journal.Some? ==> if disk.journal.value.committed then Promised(request) else Unfinished()
    {
      hide Spares, Own, Timely, Working, Consistent, AsBefore, Effected, Retires, PlannedFor, WellFormed, ConfigsHeld;
      mem := Memory([], [], [], [], Manifest(None, []), []);
      StartIsReady(disk, mem, past, manifestPath);
      SparesMore(script, past.before, Here(), iset{}, iset{}, Replaced(mem.writes),
        LinkSet(mem.linked + mem.removedLinks), manifestPath);
      OwnNothing(script, past.before, Here(), manifestPath);
      ConsistentIsFresh(disk, past, manifestPath);
      var touchesUser;
      r, touchesUser := Commit(request);
      if r.Died? {
        LeftBehind();
      } else if r.Threw? {
        r := GiveUp();
      } else {
        r := Finish(request, touchesUser);
      }
    }

    /** How an operation that got as far as beginning relates to what it found. */
    twostate predicate StartsFromOld()
      reads this
    {
      && old(now) <= past.before.time
      && Spares(script, old(Here()), past.before, OwnMarks(old(disk).journal), OwnLinks(old(disk).journal),
           manifestPath)
      && match old(disk).journal
         case None => past.before == old(Here())
         case Some(j) =>
           var since := Touched(script, old(past).before.time, past.before.time);
           if j.committed then
             && AsCommitted(old(disk).(files := past.before.files, links := past.before.links), j,
                  old(past).(foreign := since), manifestPath)
             && RowsOf(past.before.files, manifestPath) == RowsOf(old(past).committed.files, manifestPath)
           else
             && SameFiles(past.before.files, old(past).before.files, since)
             && SameLinks(past.before.links, old(past).before.links, since)
    }

    /**
     Everything is as it was at the start, but for what the environment did itself, and at most the
     credential created last is live that was not.
     */
    twostate predicate NothingHappened()
      reads this
    {
      && SameFiles(disk.files, old(disk).files, Touched(script, old(now), now))
      && SameLinks(disk.links, old(disk).links, Touched(script, old(now), now))
      && Get(disk.files, manifestPath) == Get(old(disk).files, manifestPath)
      && disk.live <= old(disk).live + Newest(old(disk).created, disk.created)
    }

    twostate lemma TakenBack()
      requires old(Valid()) && Valid() && old(disk).journal.None? && disk.journal.None?
      requires past.before == old(Here()) && AsBefore(disk, past)
      requires past.lost <= old(past).lost + Newest(old(disk).created, disk.created)
      ensures NothingHappened()
    {
    }

    /**
     One install or uninstall, from recovery to the end. It `began` once nothing older was pending.
     If it succeeds, the request is fulfilled over what it began with. If it fails and no journal is
     left, everything is as it began; if it leaves a committed journal, that journal promises the
     rest of the request. Whatever happens, what is none of its business is left to others, and at
     most the credential created last is lost, and only by a failure.
     */
    method ManageAgent(request: Request) returns (r: Outcome, ghost began: bool)
      requires Valid() && WellFormed(request, manifestPath, skillFile)
      modifies this`disk, this`past, this`now, this`mem, this`job
      ensures Valid() && Loses(r)
      ensures !began ==>
        && !r.Done? && old(disk).journal.Some? && disk.journal == old(disk).journal && Recovers()
        && Spared(OwnMarks(old(disk).journal), OwnLinks(old(disk).journal))
      ensures began ==> StartsFromOld() && Undertakes(request) && LeavesOthers()
      ensures began && !r.Done? && disk.journal.None? ==> AsBefore(disk, past)
      ensures began && disk.journal.Some? ==>
        if disk.journal.value.committed then Promised(request) else Unfinished()
      ensures r.Done? ==> began && disk.journal.None? && Fulfilled(request)
      ensures old(disk).journal.None? && !r.Done? && disk.journal.None? ==> NothingHappened()
    {
      hide Spares, Consistent, WellFormed, Effected, Retires, PlannedFor, ConfigsHeld;
      began := false;
      if disk.journal.None? {
        Begin(request);
        began := true;
      }
      r := RecoverJournal();
      SparesMore(script, old(Here()), Here(), OwnMarks(old(disk).journal), OwnLinks(old(disk).journal),
        OwnMarks(old(disk).journal), OwnLinks(old(disk).journal), manifestPath);
      if began {
        StartsLeavingOthers();
        SparesNow(script, old(Here()), iset{}, iset{}, manifestPath);
      }
      if r.Done? {
        if !began {
          Begin(request);
          began := true;
          SparesNow(script, Here(), iset{}, iset{}, manifestPath);
        }
        r := Operate(request);
      }
      if old(disk).journal.None? && !r.Done? && disk.journal.None? {
        TakenBack();
      }
    }

    lemma StartsLeavingOthers()
      requires Spares(script, past.before, Here(), iset{}, iset{}, manifestPath)
      ensures LeavesOthers()
    {
      SparesMore(script, past.before, Here(), iset{}, iset{}, Business(job, past.before.minted), BusinessLinks(job),
        manifestPath);
    }

    /**
     Any number of recoveries of one pending journal, each of which may be cut short anywhere.
     Once the journal is gone, everything is as before the operation if it had not committed,
     and as it committed it otherwise, with the credentials it no longer needs revoked. What others
     left is changed only where it is a text or a link the journal recorded.
     */
    method RecoverAgain(times: nat)
      requires Valid() && disk.journal.Some?
      modifies this`disk, this`past, this`now
      ensures Valid() && Recovers()
      ensures Spared(OwnMarks(old(disk).journal), OwnLinks(old(disk).journal))
      ensures disk.journal == old(disk).journal || disk.journal.None?
      ensures disk.journal.None? && !old(disk).journal.value.committed ==>
        AsBefore(disk, past) && forall id :: id in old(disk).journal.value.issued ==> id !in disk.live
      ensures disk.journal.None? && old(disk).journal.value.committed ==> Finished(old(disk).journal.value)
    {
      hide Spares, Consistent, Timely, OwnMarks, OwnLinks, AsBefore, Finished;
      ghost var marks, links := OwnMarks(disk.journal), OwnLinks(disk.journal);
      SparesNow(script, Here(), marks, links, manifestPath);
      var left := times;
      while left > 0 && disk.journal.Some?
        invariant Valid() && Recovers() && Spared(marks, links)
        invariant disk.journal == old(disk).journal || disk.journal.None?
        invariant disk.journal.None? && !old(disk).journal.value.committed ==>
          AsBefore(disk, past) && forall id :: id in old(disk).journal.value.issued ==> id !in disk.live
        invariant disk.journal.None? && old(disk).journal.value.committed ==> Finished(old(disk).journal.value)
      {
        ghost var a := Here();
        var outcome := RecoverJournal();
        SparesJoin(script, old(Here()), a, Here(), marks, links, manifestPath);
        left := left - 1;
      }
    }

    /**
     Crash atomicity: an operation that may fail or die anywhere, then recoveries that may too. Once
     no journal is pending, either nothing happened or the request is fulfilled in full; and at every
     point what is none of its business is exactly as others alone leave it.
     */
    method OperateAndRecover(request: Request, times: nat) returns (r: Outcome)
      requires Valid() && WellFormed(request, manifestPath, skillFile) && disk.journal.None?
      modifies this`disk, this`past, this`now, this`mem, this`job
      ensures Valid() && past.before == old(Here())
      ensures Undertakes(request) && LeavesOthers()
      ensures disk.journal.None? ==> NothingHappened() || Fulfilled(request)
      ensures r.Done? ==> disk.journal.None? && Fulfilled(request)
      ensures past.lost <= old(past).lost + (if r.Done? then {} else Newest(old(disk).created, disk.created))
    {
      hide Spares, Consistent, WellFormed, Effected, Retires, PlannedFor, JournalOf, ConfigsHeld;
      ghost var began;
      r, began := ManageAgent(request);
      if disk.journal.Some? {
        RecoverLeft(request, times);
      }
      if disk.journal.None? && AsBefore(disk, past) {
        TakenBack();
      }
    }

    /** What an operation left behind is taken back, or finished as it promised. */
    method RecoverLeft(request: Request, times: nat)
      requires Valid() && disk.journal.Some? && LeavesOthers()
      requires if disk.journal.value.committed then Promised(request) else Unfinished()
      modifies this`disk, this`past, this`now
      ensures Valid() && Recovers() && LeavesOthers()
      ensures disk.journal.None? ==>
        if old(disk).journal.value.committed then Fulfilled(request) else AsBefore(disk, past)
    {
      hide Spares, Consistent, Effected, Retires, JournalOf, AsBefore, ToRemove, Left, LinkSet, Business,
        BusinessLinks, AsCommitted, ConfigsHeld;
      ghost var j, foreign, a := disk.journal.value, past.foreign, Here();
      RecoverAgain(times);
      if j.committed {
        FinishLeavesOthers(request, a, j);
        RetiringKeepsConfigs(job, RowsOf(past.committed.files, manifestPath), j, script, past.before, a, Here());
        if disk.journal.None? {
          FinishedIsEffected(request, job, disk, j, past, foreign);
        }
      } else {
        JournalIsBusiness(job, j, past.before.minted);
        UndoLeavesOthers(a, Left(j.writes), LinkSet(j.linked + j.removedLinks));
      }
    }

    /**
     Any history of operations, each of which may fail or be cut short anywhere, with other
     programs editing files in between: the manifest never names a revoked credential, and when no
     journal is pending the live credentials are those it names and the lost ones, of which there
     is at most one for each operation that did not succeed.
     */
    method AnyHistory(requests: seq<Request>) returns (outcomes: seq<Outcome>)
      requires Valid()
      requires forall q :: q in requests ==> WellFormed(q, manifestPath, skillFile)
      modifies this`disk, this`past, this`now, this`mem, this`job
      ensures Valid() && |outcomes| == |requests|
      ensures Named(disk.files, manifestPath) <= disk.live
      ensures disk.journal.None? ==> disk.live == Named(disk.files, manifestPath) + past.lost
      ensures |past.lost - old(past).lost| <= Failures(outcomes)
    {
      hide Spares, Consistent, Timely, WellFormed, Promised, Fulfilled, StartsFromOld, NothingHappened, Unfinished,
        Undertakes, LeavesOthers, AsBefore, Named, Failures;
      outcomes := [];
      NoneLost(past.lost);
      for i := 0 to |requests|
        invariant Valid() && |outcomes| == i
        invariant |past.lost - old(past).lost| <= Failures(outcomes)
      {
        var idle := Pause();
        ghost var lost, created := past.lost, disk.created;
        var outcome, began := ManageAgent(requests[i]);
        OneMoreLost(old(past).lost, lost, past.lost, created, disk.created);
        FailuresAppend(outcomes, outcome);
        outcomes := outcomes + [outcome];
      }
      ManifestNamesOnlyLiveCredentials(disk, past, manifestPath);
    }
  }

  function Failures(outcomes: seq<Outcome>): nat {
    if outcomes == [] then 0
    else
      var n := |outcomes| - 1;
      Failures(outcomes[..n]) + (if outcomes[n].Done? then 0 else 1)
  }

  lemma FailuresAppend(outcomes: seq<Outcome>, outcome: Outcome)
    ensures Failures(outcomes + [outcome]) == Failures(outcomes) + (if outcome.Done? then 0 else 1)
  {
    assert (outcomes + [outcome])[..|outcomes|] == outcomes;
  }

  lemma NoneLost(lost: set<Id>)
    ensures |lost - lost| == Failures([])
  {
    assert lost - lost == {};
  }

  lemma OneMoreLost(start: set<Id>, a: set<Id>, b: set<Id>, before: nat, after: nat)
    requires b <= a + Newest(before, after)
    ensures |b - start| <= |a - start| + 1
    ensures b <= a ==> |b - start| <= |a - start|
  {
    if b <= a {
      Fewer(b - start, a - start);
    } else {
      Fewer(b - start, a - start + {after - 1});
    }
  }

  lemma {:induction false} Fewer(a: set<Id>, b: set<Id>)
    requires a <= b
    ensures |a| <= |b|
  {
    if x :| x in a {
      Fewer(a - {x}, b - {x});
    }
  }
}
