/** Why each single effect of an operation, of its rollback and of recovery keeps the predicates. */
module IntegrationSteps {
  import opened Common
  import opened UndoLog
  import opened IntegrationState

  function Journaled(disk: Disk, j: Journal): Disk {
    disk.(journal := Some(j))
  }

  lemma JournaledIsFresh(disk: Disk, j: Journal, foreign: set<Path>)
    requires Fresh(disk, foreign)
    ensures Fresh(Journaled(disk, j), foreign)
  {
  }

  lemma RecordsAppend(writes: seq<Written>, w: Written)
    ensures Records(writes + [w]) == Records(writes) + [Record(w)]
  {
  }

  /** Journaling a write before it happens. */
  lemma JournalWrite(disk: Disk, m: Memory, past: Past, mp: Path, e: Entry)
    requires Working(disk, m, past, mp) && InSync(disk, m)
    requires e.file !in past.foreign ==> e.before == Get(disk.files, e.file)
    requires ManifestWriteOk(past.before.files, e, IdSet(Pending(disk).issued), mp, disk.minted)
    ensures
      var j := Pending(disk);
      Working(Journaled(disk, j.(writes := j.writes + [e])), m, past, mp)
  {
    var j := Pending(disk);
    WriteExtendsLog(past.before.files, disk.files, j.writes, past.foreign, e);
  }

  /** The journaled write happens. */
  lemma ApplyWrite(disk: Disk, m: Memory, past: Past, mp: Path, w: Written)
    requires Working(disk, m, past, mp) && Get(disk.files, w.file) == w.before
    requires
      var j := Pending(disk);
      && j.writes == Records(m.writes) + [Record(w)]
      && m.linked == j.linked && m.removedLinks == j.removedLinks && IdSet(m.issued) == IdSet(j.issued)
    ensures
      var disk' := disk.(files := Put(disk.files, w.file, Some(w.after)));
      var m' := m.(writes := m.writes + [w]);
      Working(disk', m', past, mp) && InSync(disk', m')
  {
    var base, log := past.before.files, Records(m.writes);
    var files := Put(disk.files, w.file, Some(w.after));
    ChainedPrefix(base, Pending(disk).writes, past.foreign, |log|);
    assert Pending(disk).writes[..|log|] == log;
    WriteExtendsLog(base, disk.files, log, past.foreign, Record(w));
    RecordsAppend(m.writes, w);
    ExactIsWithin(base, files, log + [Record(w)], past.foreign);
  }

  /** Journaling a skill link before it is created. */
  lemma JournalLink(disk: Disk, m: Memory, past: Past, mp: Path, link: Path)
    requires Working(disk, m, past, mp) && InSync(disk, m)
    requires Pending(disk).removedLinks == [] && At(disk.links, link) == None
    ensures
      var j := Pending(disk);
      Working(Journaled(disk, j.(linked := j.linked + [link])), m, past, mp)
  {
  }

  lemma ApplyLink(disk: Disk, m: Memory, past: Past, mp: Path, link: Path)
    requires Working(disk, m, past, mp) && At(disk.links, link) == None
    requires
      var j := Pending(disk);
      && j.linked == m.linked + [link] && Records(m.writes) == j.writes
      && m.removedLinks == j.removedLinks && IdSet(m.issued) == IdSet(j.issued)
    ensures
      var disk' := disk.(links := disk.links[link := Owned]);
      var m' := m.(linked := m.linked + [link]);
      Working(disk', m', past, mp) && InSync(disk', m')
  {
  }

  /** Journaling a skill link before it is removed. */
  lemma JournalUnlink(disk: Disk, m: Memory, past: Past, mp: Path, link: Path)
    requires Working(disk, m, past, mp) && InSync(disk, m)
    requires Pending(disk).linked == [] && At(disk.links, link) == Some(Owned)
    ensures
      var j := Pending(disk);
      Working(Journaled(disk, j.(removedLinks := j.removedLinks + [link])), m, past, mp)
  {
  }

  lemma ApplyUnlink(disk: Disk, m: Memory, past: Past, mp: Path, link: Path)
    requires Working(disk, m, past, mp)
    requires
      var j := Pending(disk);
      && j.removedLinks == m.removedLinks + [link] && Records(m.writes) == j.writes
      && m.linked == j.linked && j.linked == [] && IdSet(m.issued) == IdSet(j.issued)
    ensures
      var disk' := if At(disk.links, link) == Some(Owned) then disk.(links := disk.links - {link}) else disk;
      var m' := m.(removedLinks := m.removedLinks + [link]);
      Working(disk', m', past, mp) && InSync(disk', m')
  {
  }

  /** A credential exists before its id is known to anyone but its issuer. */
  function Created(disk: Disk): Disk {
    disk.(live := disk.live + {disk.created}, created := disk.created + 1)
  }

  lemma CreateCredential(disk: Disk, m: Memory, past: Past, mp: Path)
    requires Working(disk, m, past, mp) && Fresh(disk, past.foreign)
    ensures Working(Created(disk), m, past.(lost := past.lost + {disk.created}), mp)
    ensures Fresh(Created(disk), past.foreign)
    ensures disk.created !in past.lost && disk.created !in IdSet(Pending(disk).issued)
    ensures disk.created !in Named(past.before.files, mp)
  {
    assert disk.created !in disk.live;
  }

  lemma RememberIssued(disk: Disk, m: Memory, past: Past, mp: Path, id: Id)
    requires Working(disk, m, past, mp) && id in past.lost && disk.journal.Some?
    ensures Working(disk, m.(issued := m.issued + [id]), past, mp)
  {
  }

  /** The manifest to be written and the retired registrations are in memory only. */
  lemma BooksAreInMemory(
      disk: Disk, m: Memory, past: Past, mp: Path, manifest: Manifest, retired: seq<Registration>)
    requires Working(disk, m, past, mp)
    ensures
      var n := m.(manifest := manifest, retired := retired);
      Working(disk, n, past, mp) && (InSync(disk, m) ==> InSync(disk, n))
  {
  }

  /** The label of a credential to be created is saved. */
  lemma LabelIssue(disk: Disk, m: Memory, past: Past, mp: Path, issuing: seq<string>)
    requires Working(disk, m, past, mp) && InSync(disk, m)
    ensures
      var disk' := Journaled(disk, Pending(disk).(issuing := issuing));
      Working(disk', m, past, mp) && InSync(disk', m)
  {
  }

  /** From here on the journal knows the id, so the credential is not lost. */
  lemma RecordIssued(disk: Disk, m: Memory, past: Past, mp: Path, id: Id, issuing: seq<string>)
    requires Working(disk, m, past, mp) && id in past.lost
    requires
      var j := Pending(disk);
      && Records(m.writes) == j.writes && m.linked == j.linked && m.removedLinks == j.removedLinks
      && IdSet(m.issued) == IdSet(j.issued) + {id}
    ensures
      var j := Pending(disk);
      var disk' := Journaled(disk, j.(issued := j.issued + [id], issuing := issuing));
      Working(disk', m, past.(lost := past.lost - {id}), mp) && InSync(disk', m)
  {
    var j := Pending(disk);
    assert IdSet(j.issued + [id]) == IdSet(j.issued) + {id};
  }

  /** An uncommitted operation, possibly one that saved nothing yet, is being taken back. */
  ghost predicate Reverting(disk: Disk, past: Past, mp: Path) {
    && mp !in past.foreign && mp.Plain?
    && Fresh(disk, past.foreign)
    && InFlight(disk, Pending(disk), past, mp)
  }

  lemma DriftKeepsReverting(a: Disk, b: Disk, p: Past, q: Past, mp: Path, log: seq<Entry>)
    requires Drifted(a, b, p, q, mp) && Reverting(a, p, mp)
    ensures Reverting(b, q, mp)
    ensures Within(p.before.files, a.files, log, p.foreign) ==>
      Within(q.before.files, b.files, log, q.foreign)
  {
    InFlightIsConsistent(a, p, mp);
    DriftKeepsConsistent(a, b, p, q, mp);
    DriftKeepsInFlight(a, b, Pending(a), p, q, mp);
  }

  /** Undoing one journaled write, by rollback or by recovery. */
  lemma UndoWrite(disk: Disk, past: Past, mp: Path, log: seq<Entry>, k: nat)
    requires Reverting(disk, past, mp)
    requires 0 < k <= |log| && log <= Pending(disk).writes
    requires Within(past.before.files, disk.files, log[..k], past.foreign)
    ensures
      var disk' := disk.(files := UndoOne(disk.files, log[k - 1]));
      && Reverting(disk', past, mp)
      && Within(past.before.files, disk'.files, log[..k - 1], past.foreign)
  {
    var base, all, files := past.before.files, Pending(disk).writes, disk.files;
    ChainedPrefix(base, all, past.foreign, k);
    assert all[..k] == log[..k] && log[..k][..k - 1] == log[..k - 1] == all[..k - 1];
    UndoOneStepsBack(base, files, log[..k], past.foreign);
    WithinPrefix(base, UndoOne(files, log[k - 1]), all, past.foreign, k - 1);
    assert all[k - 1] in all;
  }

  lemma CanTakeBack(disk: Disk, past: Past, mp: Path)
    requires InFlight(disk, Pending(disk), past, mp)
    requires mp !in past.foreign && mp.Plain? && Fresh(disk, past.foreign)
    ensures Reverting(disk, past, mp) && Consistent(disk, past, mp)
  {
    InFlightIsConsistent(disk, past, mp);
  }

  lemma PendingCanBeTakenBack(disk: Disk, past: Past, mp: Path)
    requires Consistent(disk, past, mp) && disk.journal.Some? && !disk.journal.value.committed
    ensures
      var j := disk.journal.value;
      && Reverting(disk, past, mp)
      && Within(past.before.files, disk.files, j.writes, past.foreign)
      && LinksBack(past.before.links, disk.links, j.linked + j.removedLinks, past.foreign)
  {
  }

  /** A running operation can be taken back as far as memory lists what it did. */
  lemma CanRollBack(disk: Disk, m: Memory, past: Past, mp: Path)
    requires Working(disk, m, past, mp)
    ensures
      var j := Pending(disk);
      && InFlight(disk, j, past, mp)
      && Records(m.writes) <= j.writes && m.linked <= j.linked && m.removedLinks <= j.removedLinks
      && Within(past.before.files, disk.files, Records(m.writes), past.foreign)
      && LinksBack(past.before.links, disk.links, m.linked + m.removedLinks, past.foreign)
      && (m.issued != [] ==> disk.journal.Some?)
      && (forall k :: 0 <= k < |m.issued| ==> m.issued[k] in IdSet(j.issued) + past.lost)
      && IdSet(j.issued) <= IdSet(m.issued)
  {
    ExactIsWithin(past.before.files, disk.files, Records(m.writes), past.foreign);
    forall k | 0 <= k < |m.issued| ensures m.issued[k] in IdSet(m.issued) {
    }
  }

  /** Once everything is as before and no issued credential is live the journal can go. */
  lemma ForgetUndone(disk: Disk, past: Past, mp: Path)
    requires Consistent(disk, past, mp) && AsBefore(disk, past)
    requires disk.journal.Some? && !disk.journal.value.committed
    requires forall id :: id in IdSet(disk.journal.value.issued) ==> id !in disk.live
    ensures Consistent(disk.(journal := None), past, mp) && AsBefore(disk.(journal := None), past)
  {
  }

  lemma AsBeforeDrifts(a: Disk, b: Disk, p: Past, q: Past, mp: Path)
    requires AsBefore(a, p) && Drifted(a, b, p, q, mp)
    ensures AsBefore(b, q)
  {
  }

  /** With no journal saved nothing was done, so there is nothing to take back. */
  lemma NothingSaved(a: Disk, b: Disk, m: Memory, p: Past, q: Past, mp: Path)
    requires Working(a, m, p, mp) && b == a.(files := b.files, links := b.links)
    requires q == p.(foreign := q.foreign) && Reverting(b, q, mp)
    ensures b.journal.None? ==> AsBefore(b, q)
  {
  }

  /** Links are back where they were, except those still listed in `rest`. */
  ghost predicate LinksBack(base: Links, links: Links, rest: seq<Path>, foreign: set<Path>) {
    forall l :: l !in foreign && l !in rest ==> At(links, l) == At(base, l)
  }

  /** A credential that may be revoked now: nothing on disk names it any more. */
  ghost predicate Revocable(disk: Disk, past: Past, mp: Path, id: Id) {
    && disk.journal.Some?
    && var j := disk.journal.value;
       if j.committed then id in RetiredIds(j.retired)
       else && Named(disk.files, mp) == Named(past.before.files, mp)
            && (id in IdSet(j.issued) + past.lost || id !in disk.live)
  }

  lemma RetiredIsRevocable(disk: Disk, past: Past, mp: Path, item: Retired)
    requires Consistent(disk, past, mp) && disk.journal.Some? && disk.journal.value.committed
    requires item in disk.journal.value.retired
    ensures Revocable(disk, past, mp, item.id) && item.file != mp
  {
  }

  lemma CleanupIsNotManifest(disk: Disk, past: Past, mp: Path, item: Cleanup)
    requires Consistent(disk, past, mp) && disk.journal.Some? && disk.journal.value.committed
    requires item in disk.journal.value.cleanup
    ensures item.file != mp
  {
  }

  lemma RevokeOne(disk: Disk, past: Past, mp: Path, id: Id)
    requires Consistent(disk, past, mp) && Revocable(disk, past, mp, id)
    ensures Consistent(disk.(live := disk.live - {id}), past.(lost := past.lost - {id}), mp)
    ensures id !in Named(disk.files, mp)
  {
  }

  /** The finished operation removes a file that still has the text to remove. */
  lemma RemoveOne(disk: Disk, past: Past, mp: Path, f: Path)
    requires Consistent(disk, past, mp) && disk.journal.Some? && disk.journal.value.committed
    requires Get(disk.files, f).Some?
    requires Get(disk.files, f) == Get(past.committed.files, f) ==>
      Removable(disk.journal.value, past.committed.files, mp, f)
    requires f == mp ==> Named(disk.files, mp) == {}
    ensures Consistent(disk.(files := disk.files - {f}), past, mp)
  {
  }

  lemma TakeLinkBack(disk: Disk, past: Past, mp: Path, linked: seq<Path>, i: nat, rest: seq<Path>)
    requires Reverting(disk, past, mp) && i < |linked| && linked[i] in Pending(disk).linked
    requires LinksBack(past.before.links, disk.links, linked[i..] + rest, past.foreign)
    ensures
      var l := linked[i];
      var disk' := if At(disk.links, l) == Some(Owned) then disk.(links := disk.links - {l}) else disk;
      && Reverting(disk', past, mp)
      && LinksBack(past.before.links, disk'.links, linked[i + 1..] + rest, past.foreign)
  {
    assert linked[i..] == [linked[i]] + linked[i + 1..];
  }

  lemma PutLinkBack(disk: Disk, past: Past, mp: Path, removed: seq<Path>, i: nat)
    requires Reverting(disk, past, mp) && i < |removed| && removed[i] in Pending(disk).removedLinks
    requires LinksBack(past.before.links, disk.links, removed[i..], past.foreign)
    ensures
      var l := removed[i];
      var disk' := if At(disk.links, l) == None then disk.(links := disk.links[l := Owned]) else disk;
      && Reverting(disk', past, mp)
      && LinksBack(past.before.links, disk'.links, removed[i + 1..], past.foreign)
  {
    assert removed[i..] == [removed[i]] + removed[i + 1..];
    assert Pending(disk).linked == [];
  }

  /** Once every retired credential is revoked the journal can go. */
  lemma ForgetFinished(disk: Disk, past: Past, mp: Path)
    requires Consistent(disk, past, mp) && disk.journal.Some? && disk.journal.value.committed
    requires forall item :: item in disk.journal.value.retired ==> item.id !in disk.live
    ensures Consistent(disk.(journal := None), past, mp)
    ensures AsCommitted(disk, disk.journal.value, past, mp)
  {
    assert disk.live !! RetiredIds(disk.journal.value.retired);
  }

  /** The memory's books: every known credential is either kept or retired, and not both. */
  ghost predicate Books(rows: seq<Registration>, retired: seq<Registration>, minted: nat, known: set<Id>) {
    && GoodRows(rows, minted)
    && (forall r :: r in retired ==> r.file.CredentialFile? && r.file.serial < minted)
    && Ids(rows) !! Ids(retired)
    && Ids(rows) + Ids(retired) == known
    && FilesOf(rows) !! FilesOf(retired)
  }

  lemma DropKeepsRows(rows: seq<Registration>, minted: nat, key: string)
    requires GoodRows(rows, minted)
    ensures GoodRows(Without(rows, key), minted)
    ensures Find(Without(rows, key), key) == None
    ensures forall k :: k != key ==> Find(Without(rows, key), k) == Find(rows, k)
  {
    WithoutKeepsTheRest(rows, key);
    WithoutStaysDistinct(rows, key);
  }

  function PushSome(retired: seq<Registration>, found: Option<Registration>): seq<Registration> {
    if found.Some? then retired + [found.value] else retired
  }

  lemma FilesStayApart(rows: seq<Registration>, retired: seq<Registration>, key: string)
    requires Distinct(rows) && FilesOf(rows) !! FilesOf(retired)
    ensures FilesOf(Without(rows, key)) !! FilesOf(PushSome(retired, Find(rows, key)))
  {
    WithoutKeepsTheRest(rows, key);
    WithoutDropsOneId(rows, key);
    assert FilesOf(Without(rows, key)) <= FilesOf(rows);
    var found := Find(rows, key);
    if found.Some? {
      var more := retired + [found.value];
      assert forall r :: r in more ==> r in retired || r == found.value;
      assert FilesOf(more) <= FilesOf(retired) + {found.value.file};
    }
  }

  /** Dropping the registration with `key`, if any, moves its credential to the retired. */
  lemma RetireOne(rows: seq<Registration>, retired: seq<Registration>, minted: nat, known: set<Id>, key: string)
    requires Books(rows, retired, minted, known)
    ensures Books(Without(rows, key), PushSome(retired, Find(rows, key)), minted, known)
    ensures Find(Without(rows, key), key) == None
    ensures forall k :: k != key ==> Find(Without(rows, key), k) == Find(rows, k)
  {
    hide FilesOf, Without, Find;
    DropKeepsRows(rows, minted, key);
    WithoutDropsOneId(rows, key);
    FindFinds(rows, key);
    FilesStayApart(rows, retired, key);
    var found := Find(rows, key);
    if found.Some? {
      var more := retired + [found.value];
      assert Ids(more) == Ids(retired) + {found.value.credential};
      assert forall r :: r in more ==> r in retired || r == found.value;
    }
  }

  /** A new registration enters the books with a credential and a credential file of its own. */
  lemma RegisterOne(
      rows: seq<Registration>, retired: seq<Registration>, minted: nat, known: set<Id>, row: Registration)
    requires Books(rows, retired, minted, known)
    requires row.file == CredentialFile(minted)
    requires Find(rows, row.key) == None && row.credential !in known
    ensures Books(rows + [row], retired, minted + 1, known + {row.credential})
    ensures forall k :: k != row.key ==> Find(rows + [row], k) == Find(rows, k)
  {
    FindFinds(rows, row.key);
    forall i, j | 0 <= i < j < |rows + [row]|
      ensures (rows + [row])[i].key != (rows + [row])[j].key
      ensures (rows + [row])[i].credential != (rows + [row])[j].credential
      ensures (rows + [row])[i].file != (rows + [row])[j].file
    {
      assert (rows + [row])[i] in rows;
      assert (rows + [row])[i].credential in Ids(rows);
    }
    assert Ids(rows + [row]) == Ids(rows) + {row.credential};
    forall k | k != row.key ensures Find(rows + [row], k) == Find(rows, k) {
      FindAppend(rows, row, k);
    }
  }

  /** The registration with the new row's key, if any, is replaced by it. */
  lemma ReplaceOne(
      rows: seq<Registration>, retired: seq<Registration>, minted: nat, known: set<Id>, row: Registration)
    requires Books(rows, retired, minted, known)
    requires row.file == CredentialFile(minted) && row.credential !in known
    ensures
      var rows' := Without(rows, row.key) + [row];
      && Books(rows', PushSome(retired, Find(rows, row.key)), minted + 1, known + {row.credential})
      && Find(rows', row.key) == Some(row)
      && (forall k :: k != row.key ==> Find(rows', k) == Find(rows, k))
  {
    WithoutKeepsTheRest(rows, row.key);
    FindAppended(Without(rows, row.key), row);
    RetireOne(rows, retired, minted, known, row.key);
    RegisterOne(Without(rows, row.key), PushSome(retired, Find(rows, row.key)), minted, known, row);
  }

  /** A file name made from a new UUID is new. */
  lemma MintName(disk: Disk, m: Memory, past: Past, mp: Path)
    requires Working(disk, m, past, mp) && Fresh(disk, past.foreign)
    ensures
      var disk' := disk.(minted := disk.minted + 1);
      Working(disk', m, past, mp) && Fresh(disk', past.foreign) && (InSync(disk, m) ==> InSync(disk', m))
    ensures CredentialFile(disk.minted) !in disk.files
  {
  }

  lemma ConsistentIsFresh(disk: Disk, past: Past, mp: Path)
    requires Consistent(disk, past, mp)
    ensures mp !in past.foreign && mp.Plain? && Fresh(disk, past.foreign)
  {
  }

  /** An operation starts from a settled state with empty hands. */
  lemma StartIsReady(disk: Disk, m: Memory, past: Past, mp: Path)
    requires Consistent(disk, past, mp) && disk.journal.None?
    requires AsBefore(disk, past)
    requires m.writes == [] && m.linked == [] && m.removedLinks == [] && m.issued == []
    ensures Working(disk, m, past, mp) && InSync(disk, m)
  {
  }

  function Retire(rows: seq<Registration>): seq<Retired> {
    seq(|rows|, i requires 0 <= i < |rows| => Retired(rows[i].credential, rows[i].file, rows[i].digest))
  }

  /** The commit point: from here on the operation is finished, never undone. */
  lemma CommitIsConsistent(disk: Disk, m: Memory, past: Past, mp: Path, cleanup: seq<Cleanup>, time: nat)
    requires Working(disk, m, past, mp) && InSync(disk, m) && disk.journal.Some?
    requires mp !in past.foreign && mp.Plain? && Fresh(disk, past.foreign)
    requires Get(disk.files, mp) == Some(ManifestText(m.manifest))
    requires Books(m.manifest.rows, m.retired, disk.minted,
               Named(past.before.files, mp) + IdSet(Pending(disk).issued))
    requires forall c :: c in cleanup ==> c.file != mp
    ensures
      var j := disk.journal.value.(retired := Retire(m.retired), cleanup := cleanup, committed := true);
      Consistent(
        disk.(journal := Some(j)), past.(committed := Snapshot(disk.files, disk.links, time, disk.minted)), mp)
  {
    var retired := Retire(m.retired);
    forall id ensures id in RetiredIds(retired) <==> id in Ids(m.retired) {
      if id in Ids(m.retired) {
        var i :| 0 <= i < |m.retired| && m.retired[i].credential == id;
        assert retired[i] in retired;
      }
    }
    assert RetiredIds(retired) == Ids(m.retired);
    forall r | r in retired ensures r.file != mp {
      var i :| 0 <= i < |retired| && retired[i] == r;
      assert m.retired[i] in m.retired;
    }
  }

  /** What was done in between is noted after what was done before. */
  ghost predicate Grown(m: Memory, n: Memory) {
    m.writes <= n.writes && m.linked <= n.linked && m.removedLinks <= n.removedLinks
  }

  /** Between the two states only files, links and the lists of their changes differ. */
  ghost predicate OnlyEffects(a: Disk, b: Disk, m: Memory, n: Memory, p: Past, q: Past) {
    && b == a.(files := b.files, links := b.links, journal := b.journal)
    && Pending(b).issued == Pending(a).issued
    && Pending(b).issuing == Pending(a).issuing
    && Pending(b).committed == Pending(a).committed
    && n == m.(writes := n.writes, linked := n.linked, removedLinks := n.removedLinks)
    && Grown(m, n)
    && q == p.(foreign := q.foreign) && p.foreign <= q.foreign
    && (a.journal.Some? ==> b.journal.Some?)
  }
}
