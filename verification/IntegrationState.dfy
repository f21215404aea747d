/**
 What an integration operation keeps on disk and in memory, and the predicates that say how far
 it has come. Everything is stated for paths outside `foreign`, the paths someone else changed
 while the operation was pending.
 */
module IntegrationState {
  import opened Common
  import opened UndoLog

  /** A skill link is missing when it is not in the map. */
  datatype Link = Owned | Conflict

  type Links = map<Path, Link>

  function At(links: Links, link: Path): Option<Link> {
    if link in links then Some(links[link]) else None
  }

  datatype Retired = Retired(id: Id, file: Path, digest: Digest)

  datatype Cleanup = Cleanup(file: Path, digest: Digest)

  datatype Journal = Journal(
    writes: seq<Entry>, linked: seq<Path>, removedLinks: seq<Path>, issued: seq<Id>,
    issuing: seq<string>, retired: seq<Retired>, cleanup: seq<Cleanup>, committed: bool)

  const EMPTY_JOURNAL := Journal([], [], [], [], [], [], [], false)

  /**
   What survives a crash: files, links, the live credentials and the journal file. `minted` and
   `created` count the random file names and the credential ids handed out so far.
   */
  datatype Disk = Disk(
    files: Files, links: Links, live: set<Id>, journal: Option<Journal>, minted: nat, created: nat)

  /** A write that was applied, with both texts, kept for the in-process rollback. */
  datatype Written = Written(file: Path, before: Option<Text>, after: Text)

  /** What dies with the process. */
  datatype Memory = Memory(
    writes: seq<Written>, linked: seq<Path>, removedLinks: seq<Path>, issued: seq<Id>,
    manifest: Manifest, retired: seq<Registration>)

  /**
   History the program does not keep: the state before the pending operation, the state it
   committed, the paths the environment changed since it began, and the credentials that were
   created without their id ever being recorded.
   */
  datatype Past = Past(
    before: Snapshot, committed: Snapshot, foreign: set<Path>, lost: set<Id>)

  /** Files and links at some time; `minted` file names had been handed out by then. */
  datatype Snapshot = Snapshot(files: Files, links: Links, time: nat, minted: nat)

  /** What the environment does before an effect: edits by other programs, and how the effect ends. */
  datatype Move = Move(edits: map<Path, Option<Text>>, links: map<Path, Option<Link>>, outcome: Outcome)

  /** The environment, fixed in advance: nothing a program does can change what it will do. */
  type Script = nat -> Move

  function Paths(m: Move): set<Path> {
    m.edits.Keys + m.links.Keys
  }

  /** The paths the environment edits from one time to another. */
  ghost function Touched(script: Script, start: nat, end: nat): set<Path>
    decreases end
  {
    if end <= start then {} else Touched(script, start, end - 1) + Paths(script(end - 1))
  }

  lemma {:induction false} TouchedGrows(script: Script, start: nat, mid: nat, end: nat)
    requires start <= mid <= end
    ensures Touched(script, mid, end) <= Touched(script, start, end)
    ensures Touched(script, start, mid) <= Touched(script, start, end)
    decreases end
  {
    if mid < end {
      TouchedGrows(script, start, mid, end - 1);
    } else {
      assert Touched(script, mid, end) == {};
    }
  }

  /** The credential created last, if one was created between two counts. */
  function Newest(before: nat, after: nat): set<Id> {
    if before < after then {after - 1} else {}
  }

  function IdSet(ids: seq<Id>): set<Id> {
    set i | i in ids
  }

  function RetiredIds(retired: seq<Retired>): set<Id> {
    set r | r in retired :: r.id
  }

  /** The text the operation last wrote to `file`. */
  function LastWrite(writes: seq<Written>, file: Path): Option<Text> {
    if writes == [] then None
    else if writes[|writes| - 1].file == file then Some(writes[|writes| - 1].after)
    else LastWrite(writes[..|writes| - 1], file)
  }

  lemma LastWriteAppend(writes: seq<Written>, w: Written, file: Path)
    ensures LastWrite(writes + [w], file) == if w.file == file then Some(w.after) else LastWrite(writes, file)
  {
    assert (writes + [w])[..|writes|] == writes;
  }

  function Record(w: Written): Entry {
    Entry(w.file, w.before, Hash(w.after))
  }

  function Records(writes: seq<Written>): seq<Entry> {
    seq(|writes|, i requires 0 <= i < |writes| => Record(writes[i]))
  }

  function Pending(disk: Disk): Journal {
    if disk.journal.Some? then disk.journal.value else EMPTY_JOURNAL
  }

  ghost predicate SameLinks(a: Links, b: Links, foreign: set<Path>) {
    forall l :: l !in foreign ==> At(a, l) == At(b, l)
  }

  ghost predicate LinksWithin(base: Links, links: Links, j: Journal, foreign: set<Path>) {
    forall l :: l !in foreign ==>
      if l in j.linked then At(base, l) == None && At(links, l) in {None, Some(Owned)}
      else if l in j.removedLinks then At(base, l) == Some(Owned) && At(links, l) in {None, Some(Owned)}
      else At(links, l) == At(base, l)
  }

  /** Each link is exactly where the applied link effects put it. */
  ghost predicate LinksExact(base: Links, links: Links, m: Memory, foreign: set<Path>) {
    forall l :: l !in foreign ==>
      At(links, l) ==
        if l in m.linked then Some(Owned) else if l in m.removedLinks then None else At(base, l)
  }

  /** Registrations are distinct, and their credential files have names that were handed out. */
  ghost predicate GoodRows(rows: seq<Registration>, minted: nat) {
    && Distinct(rows)
    && (forall r :: r in rows ==> r.file.CredentialFile? && r.file.serial < minted)
  }

  ghost predicate GoodManifest(files: Files, mp: Path, minted: nat) {
    match Get(files, mp)
    case None => true
    case Some(ManifestText(m)) => GoodRows(m.rows, minted)
    case _ => false
  }

  /** A manifest write starts from the manifest as it was and names no unknown credential. */
  ghost predicate ManifestWriteOk(base: Files, e: Entry, issued: set<Id>, mp: Path, minted: nat) {
    e.file == mp ==>
      && e.before == Get(base, mp)
      && e.afterHash.of.ManifestText?
      && GoodRows(e.afterHash.of.manifest.rows, minted)
      && Ids(e.afterHash.of.manifest.rows) <= Named(base, mp) + issued
  }

  /** The journal is not committed: the state before can still be rebuilt from it. */
  ghost predicate InFlight(disk: Disk, j: Journal, past: Past, mp: Path) {
    var base := past.before;
    var named := Named(base.files, mp);
    && !j.committed
    && Chained(base.files, j.writes, past.foreign)
    && Within(base.files, disk.files, j.writes, past.foreign)
    && (forall e :: e in j.writes ==> ManifestWriteOk(base.files, e, IdSet(j.issued), mp, disk.minted))
    && (j.linked == [] || j.removedLinks == [])
    && LinksWithin(base.links, disk.links, j, past.foreign)
    && GoodManifest(base.files, mp, disk.minted)
    && past.lost !! named
    && past.lost !! IdSet(j.issued)
    && IdSet(j.issued) !! named
    && (|| disk.live == named + IdSet(j.issued) + past.lost
        || (&& Named(disk.files, mp) == named
            && named + past.lost <= disk.live <= named + IdSet(j.issued) + past.lost))
  }

  /** A file the finished operation may remove: its text still is the one to remove. */
  ghost predicate Removable(j: Journal, committed: Files, mp: Path, f: Path) {
    && Get(committed, f).Some?
    && (|| (exists r :: r in j.retired && r.file == f && r.digest == Hash(committed[f]))
        || (exists c :: c in j.cleanup && c.file == f && c.digest == Hash(committed[f]))
        || (f == mp && Named(committed, mp) == {}))
  }

  /** Files and links are as committed, except for what the finished operation removes. */
  ghost predicate AsCommitted(disk: Disk, j: Journal, past: Past, mp: Path) {
    && (forall f :: f !in past.foreign && Get(disk.files, f) != Get(past.committed.files, f) ==>
          Get(disk.files, f) == None && Removable(j, past.committed.files, mp, f))
    && SameLinks(disk.links, past.committed.links, past.foreign)
  }

  ghost predicate AsBefore(disk: Disk, past: Past) {
    && SameFiles(disk.files, past.before.files, past.foreign)
    && SameLinks(disk.links, past.before.links, past.foreign)
  }

  /** The journal is committed: what is left is to revoke and to clean up. */
  ghost predicate Finishing(disk: Disk, j: Journal, past: Past, mp: Path) {
    var named := Named(disk.files, mp);
    && j.committed
    && AsCommitted(disk, j, past, mp)
    && named == Named(past.committed.files, mp)
    && named !! RetiredIds(j.retired)
    && past.lost !! named
    && past.lost !! RetiredIds(j.retired)
    && named + past.lost <= disk.live <= named + past.lost + RetiredIds(j.retired)
    && (forall r :: r in j.retired ==> r.file != mp)
    && (forall c :: c in j.cleanup ==> c.file != mp)
  }

  /** The registrations a manifest file lists. */
  function RowsOf(files: Files, mp: Path): seq<Registration> {
    match Get(files, mp)
    case Some(ManifestText(m)) => m.rows
    case _ => []
  }

  /** Finishing an operation changes no registration, even where it drops an empty manifest. */
  lemma FinishingKeepsRows(disk: Disk, j: Journal, past: Past, mp: Path)
    requires Finishing(disk, j, past, mp) && mp !in past.foreign
    ensures RowsOf(disk.files, mp) == RowsOf(past.committed.files, mp)
  {
    var rows := RowsOf(past.committed.files, mp);
    if rows != [] {
      assert rows[0].credential in Ids(rows);
    }
  }

  /** Names made from a fresh UUID and credential ids are new. */
  ghost predicate Fresh(disk: Disk, foreign: set<Path>) {
    && (forall id :: id in disk.live ==> id < disk.created)
    && (forall n :: n >= disk.minted ==>
          CredentialFile(n) !in disk.files && CredentialFile(n) !in foreign)
  }

  /** With no journal pending the live credentials are those the manifest names, plus lost ones. */
  ghost predicate Settled(disk: Disk, past: Past, mp: Path) {
    disk.live == Named(disk.files, mp) + past.lost && past.lost !! Named(disk.files, mp)
  }

  /** What holds whenever no operation is running, however the last ones ended. */
  ghost predicate Consistent(disk: Disk, past: Past, mp: Path) {
    && mp !in past.foreign && mp.Plain?
    && Fresh(disk, past.foreign)
    && GoodManifest(disk.files, mp, disk.minted)
    && (match disk.journal
        case None => Settled(disk, past, mp)
        case Some(j) => if j.committed then Finishing(disk, j, past, mp) else InFlight(disk, j, past, mp))
  }

  /** An operation is running and can be rolled back. */
  ghost predicate Working(disk: Disk, m: Memory, past: Past, mp: Path) {
    var j := Pending(disk);
    && InFlight(disk, j, past, mp)
    && disk.live == Named(past.before.files, mp) + IdSet(j.issued) + past.lost
    && Records(m.writes) <= j.writes
    && Exact(past.before.files, disk.files, Records(m.writes), past.foreign)
    && m.linked <= j.linked
    && m.removedLinks <= j.removedLinks
    && LinksExact(past.before.links, disk.links, m, past.foreign)
    && IdSet(j.issued) <= IdSet(m.issued) <= IdSet(j.issued) + past.lost
    && (m.issued != [] ==> disk.journal.Some?)
  }

  /** ... and its last step went well, so the journal says exactly what was done. */
  ghost predicate InSync(disk: Disk, m: Memory) {
    var j := Pending(disk);
    && Records(m.writes) == j.writes
    && m.linked == j.linked
    && m.removedLinks == j.removedLinks
    && IdSet(m.issued) == IdSet(j.issued)
  }

  /** Someone else changed files or links; every changed path is noted in `foreign`. */
  ghost predicate Drifted(a: Disk, b: Disk, p: Past, q: Past, mp: Path) {
    && b == a.(files := b.files, links := b.links)
    && q == p.(foreign := q.foreign)
    && p.foreign <= q.foreign
    && (mp in q.foreign ==> mp in p.foreign)
    && (forall n :: n >= a.minted && CredentialFile(n) in q.foreign ==> CredentialFile(n) in p.foreign)
    && SameFiles(b.files, a.files, q.foreign)
    && SameLinks(b.links, a.links, q.foreign)
  }

  lemma DriftKeepsNamed(a: Disk, b: Disk, p: Past, q: Past, mp: Path)
    requires Drifted(a, b, p, q, mp) && mp !in p.foreign
    ensures Get(b.files, mp) == Get(a.files, mp)
    ensures Named(b.files, mp) == Named(a.files, mp)
  {
  }

  lemma DriftKeepsInFlight(a: Disk, b: Disk, j: Journal, p: Past, q: Past, mp: Path)
    requires Drifted(a, b, p, q, mp) && mp !in p.foreign && InFlight(a, j, p, mp)
    ensures InFlight(b, j, q, mp)
  {
    DriftKeepsNamed(a, b, p, q, mp);
  }

  lemma DriftKeepsFinishing(a: Disk, b: Disk, j: Journal, p: Past, q: Past, mp: Path)
    requires Drifted(a, b, p, q, mp) && mp !in p.foreign && Finishing(a, j, p, mp)
    ensures Finishing(b, j, q, mp)
  {
    DriftKeepsNamed(a, b, p, q, mp);
  }

  lemma DriftKeepsConsistent(
      a: Disk, b: Disk, p: Past, q: Past, mp: Path)
    requires Drifted(a, b, p, q, mp) && Consistent(a, p, mp)
    ensures Consistent(b, q, mp)
  {
    DriftKeepsNamed(a, b, p, q, mp);
    forall n | n >= a.minted ensures CredentialFile(n) !in b.files && CredentialFile(n) !in q.foreign {
      assert Get(b.files, CredentialFile(n)) == Get(a.files, CredentialFile(n));
    }
    if a.journal.Some? {
      var j := a.journal.value;
      if j.committed {
        DriftKeepsFinishing(a, b, j, p, q, mp);
      } else {
        DriftKeepsInFlight(a, b, j, p, q, mp);
      }
    }
  }

  lemma DriftKeepsWorking(
      a: Disk, b: Disk, m: Memory, p: Past, q: Past, mp: Path)
    requires Drifted(a, b, p, q, mp) && mp !in p.foreign && Working(a, m, p, mp)
    ensures Working(b, m, q, mp)
    ensures InSync(a, m) ==> InSync(b, m)
  {
    DriftKeepsInFlight(a, b, Pending(a), p, q, mp);
  }

  lemma InFlightIsConsistent(disk: Disk, past: Past, mp: Path)
    requires InFlight(disk, Pending(disk), past, mp)
    requires mp !in past.foreign && mp.Plain? && Fresh(disk, past.foreign)
    ensures Consistent(disk, past, mp)
  {
    ManifestIsKnown(disk, Pending(disk), past, mp);
  }

  /** While a journal is pending the manifest on disk names only known, live credentials. */
  lemma ManifestIsKnown(disk: Disk, j: Journal, past: Past, mp: Path)
    requires InFlight(disk, j, past, mp) && mp !in past.foreign
    ensures GoodManifest(disk.files, mp, disk.minted)
    ensures Named(disk.files, mp) <= Named(past.before.files, mp) + IdSet(j.issued)
    ensures j.writes == [] ==> Get(disk.files, mp) == Get(past.before.files, mp)
    ensures Named(disk.files, mp) <= disk.live
  {
    var base, text := past.before.files, Get(disk.files, mp);
    TextIsOfSomeEntry(base, j.writes, mp, text);
    if text != Get(base, mp) {
      var i :| 0 <= i < |j.writes| && j.writes[i].file == mp && text == Some(j.writes[i].afterHash.of);
      assert j.writes[i] in j.writes;
    }
  }

  lemma {:induction false} TextIsOfSomeEntry(base: Files, log: seq<Entry>, f: Path, t: Option<Text>)
    requires t in Texts(base, log, f)
    ensures t == Get(base, f) || Recorded(log, f, t)
  {
    if log != [] {
      var n := |log| - 1;
      if t in Texts(base, log[..n], f) {
        TextIsOfSomeEntry(base, log[..n], f, t);
        if t != Get(base, f) {
          var i :| 0 <= i < n && log[..n][i].file == f && t == Some(log[..n][i].afterHash.of);
          assert log[i] == log[..n][i];
        }
      } else {
        assert log[n].file == f;
      }
    }
  }

  /** The manifest never names a revoked credential, whatever was interrupted. */
  lemma ManifestNamesOnlyLiveCredentials(
      disk: Disk, past: Past, mp: Path)
    requires Consistent(disk, past, mp)
    ensures Named(disk.files, mp) <= disk.live
    ensures disk.journal.None? ==> disk.live == Named(disk.files, mp) + past.lost
  {
    if disk.journal.Some? && !disk.journal.value.committed {
      ManifestIsKnown(disk, disk.journal.value, past, mp);
    }
  }
}
