/**
 What other programs do to files and links meanwhile, and what it means to spare it: a file differs
 from what they alone would have left only where the program had recognised the text they left.
 */
module IntegrationOthers {
  import opened Common
  import opened UndoLog
  import opened IntegrationState

  /** What the environment alone makes of the text of `file` from one time to another. */
  function Alone(script: Script, start: nat, end: nat, file: Path, text: Option<Text>): Option<Text>
    decreases end
  {
    if end <= start then text
    else if file in script(end - 1).edits then script(end - 1).edits[file]
    else Alone(script, start, end - 1, file, text)
  }

  function AloneLink(script: Script, start: nat, end: nat, link: Path, state: Option<Link>): Option<Link>
    decreases end
  {
    if end <= start then state
    else if link in script(end - 1).links then script(end - 1).links[link]
    else AloneLink(script, start, end - 1, link, state)
  }

  /** The environment edits neither the manifest nor a credential file whose name is not yet known. */
  predicate InReach(path: Path, mp: Path, minted: nat) {
    path != mp && (path.CredentialFile? ==> path.serial < minted)
  }

  /** A text of a file that the program recognises. */
  datatype Mark = Mark(file: Path, text: Option<Text>)

  /** The texts that writes replace, and the texts they leave. */
  ghost function Replaced(writes: seq<Written>): iset<Mark> {
    iset w | w in writes :: Mark(w.file, w.before)
  }

  ghost function Left(log: seq<Entry>): iset<Mark> {
    iset e | e in log :: Mark(e.file, Some(e.afterHash.of))
  }

  /** The texts a committed journal is to remove. */
  ghost function ToRemove(j: Journal): iset<Mark> {
    (iset r | r in j.retired :: Mark(r.file, Some(r.digest.of)))
    + (iset c | c in j.cleanup :: Mark(c.file, Some(c.digest.of)))
  }

  lemma LeftMark(log: seq<Entry>, i: nat)
    requires i < |log|
    ensures Mark(log[i].file, Some(log[i].afterHash.of)) in Left(log)
  {
    assert log[i] in log;
  }

  lemma RemovalMark(j: Journal)
    ensures forall r :: r in j.retired ==> Mark(r.file, Some(r.digest.of)) in ToRemove(j)
    ensures forall c :: c in j.cleanup ==> Mark(c.file, Some(c.digest.of)) in ToRemove(j)
  {
  }

  /** A file that is gone was to be removed and still held the text to remove. */
  ghost predicate RemovedFrom(a: Files, b: Files, j: Journal, mp: Path, foreign: set<Path>) {
    forall f :: f !in foreign && Get(b, f) != Get(a, f) ==>
      && Get(b, f) == None
      && (Mark(f, Get(a, f)) in ToRemove(j) || (f == mp && RowsOf(a, f) == []))
  }

  lemma RemovedJoin(a: Files, b: Files, c: Files, j: Journal, mp: Path, p: set<Path>, q: set<Path>)
    requires RemovedFrom(a, b, j, mp, p) && RemovedFrom(b, c, j, mp, q) && p <= q
    ensures RemovedFrom(a, c, j, mp, q)
  {
    hide ToRemove;
    forall f | f !in q && Get(c, f) != Get(a, f)
      ensures Get(c, f) == None && (Mark(f, Get(a, f)) in ToRemove(j) || (f == mp && RowsOf(a, f) == []))
    {
      if Get(b, f) == Get(a, f) {
        assert RowsOf(b, f) == RowsOf(a, f);
      }
    }
  }

  lemma RemovedOne(a: Files, b: Files, j: Journal, mp: Path, foreign: set<Path>, f: Path)
    requires forall g :: g !in foreign && g != f ==> Get(b, g) == Get(a, g)
    requires f !in foreign && Get(b, f) != Get(a, f) ==>
      Get(b, f) == None && (Mark(f, Get(a, f)) in ToRemove(j) || (f == mp && RowsOf(a, f) == []))
    ensures RemovedFrom(a, b, j, mp, foreign)
  {
  }

  /** What recovery of a pending journal may touch. */
  ghost function OwnMarks(pending: Option<Journal>): iset<Mark> {
    match pending
    case None => iset{}
    case Some(j) => if j.committed then ToRemove(j) else Left(j.writes)
  }

  ghost function OwnLinks(pending: Option<Journal>): iset<Path> {
    match pending
    case None => iset{}
    case Some(j) => if j.committed then iset{} else LinkSet(j.linked + j.removedLinks)
  }

  ghost function LinkSet(links: seq<Path>): iset<Path> {
    iset l | l in links
  }

  ghost predicate SparesFile(script: Script, a: Snapshot, b: Snapshot, marks: iset<Mark>, mp: Path, f: Path) {
    var alone := Alone(script, a.time, b.time, f, Get(a.files, f));
    InReach(f, mp, a.minted) && Get(b.files, f) != alone ==> Mark(f, alone) in marks
  }

  ghost predicate SparesLink(script: Script, a: Snapshot, b: Snapshot, links: iset<Path>, mp: Path, l: Path) {
    var alone := AloneLink(script, a.time, b.time, l, At(a.links, l));
    InReach(l, mp, a.minted) && At(b.links, l) != alone ==> l in links && alone != Some(Conflict)
  }

  /**
   From `a` to `b` a file came to differ from what others alone make of it only where they left it
   with a text in `marks`, and a link only where it is in `links` and not somebody else's.
   */
  ghost predicate Spares(
      script: Script, a: Snapshot, b: Snapshot, marks: iset<Mark>, links: iset<Path>, mp: Path)
  {
    && a.time <= b.time && a.minted <= b.minted
    && (forall f :: SparesFile(script, a, b, marks, mp, f))
    && (forall l :: SparesLink(script, a, b, links, mp, l))
  }

  lemma {:induction false} AloneJoins(
      script: Script, start: nat, mid: nat, end: nat, file: Path, text: Option<Text>)
    requires start <= mid <= end
    ensures Alone(script, start, end, file, text) ==
      Alone(script, mid, end, file, Alone(script, start, mid, file, text))
    decreases end
  {
    if mid < end {
      AloneJoins(script, start, mid, end - 1, file, text);
    }
  }

  /** Either the environment edits the file or it leaves any text alone. */
  lemma {:induction false} AloneEditsOrLeaves(
      script: Script, start: nat, end: nat, file: Path, t: Option<Text>, u: Option<Text>)
    ensures
      || Alone(script, start, end, file, t) == Alone(script, start, end, file, u)
      || (Alone(script, start, end, file, t) == t && Alone(script, start, end, file, u) == u)
    decreases end
  {
    if start < end {
      AloneEditsOrLeaves(script, start, end - 1, file, t, u);
    }
  }

  lemma {:induction false} AloneLinkJoins(
      script: Script, start: nat, mid: nat, end: nat, link: Path, state: Option<Link>)
    requires start <= mid <= end
    ensures AloneLink(script, start, end, link, state) ==
      AloneLink(script, mid, end, link, AloneLink(script, start, mid, link, state))
    decreases end
  {
    if mid < end {
      AloneLinkJoins(script, start, mid, end - 1, link, state);
    }
  }

  lemma {:induction false} AloneLinkEditsOrLeaves(
      script: Script, start: nat, end: nat, link: Path, t: Option<Link>, u: Option<Link>)
    ensures
      || AloneLink(script, start, end, link, t) == AloneLink(script, start, end, link, u)
      || (AloneLink(script, start, end, link, t) == t && AloneLink(script, start, end, link, u) == u)
    decreases end
  {
    if start < end {
      AloneLinkEditsOrLeaves(script, start, end - 1, link, t, u);
    }
  }

  /** A file nobody edits is left alone. */
  lemma {:induction false} UntouchedStaysAlone(
      script: Script, start: nat, end: nat, path: Path, text: Option<Text>, state: Option<Link>)
    requires path !in Touched(script, start, end)
    ensures Alone(script, start, end, path, text) == text
    ensures AloneLink(script, start, end, path, state) == state
    decreases end
  {
    if start < end {
      UntouchedStaysAlone(script, start, end - 1, path, text, state);
    }
  }

  /** Sparing is transitive. */
  lemma SparesJoin(
      script: Script, a: Snapshot, b: Snapshot, c: Snapshot, marks: iset<Mark>, links: iset<Path>, mp: Path)
    requires Spares(script, a, b, marks, links, mp) && Spares(script, b, c, marks, links, mp)
    ensures Spares(script, a, c, marks, links, mp)
  {
    forall f ensures SparesFile(script, a, c, marks, mp, f) {
      assert SparesFile(script, a, b, marks, mp, f) && SparesFile(script, b, c, marks, mp, f);
      AloneJoins(script, a.time, b.time, c.time, f, Get(a.files, f));
      AloneEditsOrLeaves(script, b.time, c.time, f,
        Get(b.files, f), Alone(script, a.time, b.time, f, Get(a.files, f)));
    }
    forall l ensures SparesLink(script, a, c, links, mp, l) {
      assert SparesLink(script, a, b, links, mp, l) && SparesLink(script, b, c, links, mp, l);
      AloneLinkJoins(script, a.time, b.time, c.time, l, At(a.links, l));
      AloneLinkEditsOrLeaves(script, b.time, c.time, l,
        At(b.links, l), AloneLink(script, a.time, b.time, l, At(a.links, l)));
    }
  }

  lemma SparesMore(
      script: Script, a: Snapshot, b: Snapshot, marks: iset<Mark>, links: iset<Path>,
      more: iset<Mark>, moreLinks: iset<Path>, mp: Path)
    requires Spares(script, a, b, marks, links, mp) && marks <= more && links <= moreLinks
    ensures Spares(script, a, b, more, moreLinks, mp)
  {
    forall f ensures SparesFile(script, a, b, more, mp, f) {
      assert SparesFile(script, a, b, marks, mp, f);
    }
    forall l ensures SparesLink(script, a, b, moreLinks, mp, l) {
      assert SparesLink(script, a, b, links, mp, l);
    }
  }

  lemma SparesThen(
      script: Script, a: Snapshot, b: Snapshot, c: Snapshot, marks: iset<Mark>, links: iset<Path>,
      step: iset<Mark>, stepLinks: iset<Path>, mp: Path)
    requires Spares(script, a, b, marks, links, mp) && Spares(script, b, c, step, stepLinks, mp)
    requires step <= marks && stepLinks <= links
    ensures Spares(script, a, c, marks, links, mp)
  {
    SparesMore(script, b, c, step, stepLinks, marks, links, mp);
    SparesJoin(script, a, b, c, marks, links, mp);
  }

  /** At one moment at most one file changes, and only from a text in `marks`. */
  lemma SparesFileChange(
      script: Script, a: Snapshot, b: Snapshot, c: Snapshot, f: Path, marks: iset<Mark>, links: iset<Path>, mp: Path)
    requires Spares(script, a, b, marks, links, mp)
    requires c == b.(files := c.files) && forall g :: g != f ==> Get(b.files, g) == Get(c.files, g)
    requires Get(c.files, f) != Get(b.files, f) && f != mp ==> Mark(f, Get(b.files, f)) in marks
    ensures Spares(script, a, c, marks, links, mp)
  {
    forall g ensures SparesFile(script, b, c, marks, mp, g) {
    }
    forall l ensures SparesLink(script, b, c, links, mp, l) {
    }
    SparesJoin(script, a, b, c, marks, links, mp);
  }

  /** At one moment at most one link changes, and only one in `links` that is not somebody else's. */
  lemma SparesLinkChange(
      script: Script, a: Snapshot, b: Snapshot, c: Snapshot, l: Path, marks: iset<Mark>, links: iset<Path>, mp: Path)
    requires Spares(script, a, b, marks, links, mp)
    requires c == b.(links := c.links) && forall k :: k != l ==> At(b.links, k) == At(c.links, k)
    requires At(c.links, l) != At(b.links, l) ==> l in links && At(b.links, l) != Some(Conflict)
    ensures Spares(script, a, c, marks, links, mp)
  {
    forall g ensures SparesFile(script, b, c, marks, mp, g) {
    }
    forall k ensures SparesLink(script, b, c, links, mp, k) {
    }
    SparesJoin(script, a, b, c, marks, links, mp);
  }

  /** A write replaces the text it expects, and no other. */
  lemma WriteSpares(
      script: Script, base: Snapshot, start: Snapshot, a: Snapshot, b: Snapshot, m: Memory, n: Memory, w: Written,
      mp: Path)
    requires Spares(script, base, a, Replaced(m.writes), LinkSet(m.linked + m.removedLinks), mp)
    requires Spares(script, start, a, iset{Mark(w.file, w.before)}, iset{}, mp)
    requires b == a.(files := Put(a.files, w.file, Some(w.after))) && Get(a.files, w.file) == w.before
    requires n == m.(writes := m.writes + [w])
    ensures Spares(script, base, b, Replaced(n.writes), LinkSet(n.linked + n.removedLinks), mp)
    ensures Spares(script, start, b, iset{Mark(w.file, w.before)}, iset{}, mp)
  {
    hide Spares, SparesFile, SparesLink;
    assert forall v :: v in m.writes ==> v in n.writes;
    assert w in n.writes;
    var links := LinkSet(m.linked + m.removedLinks);
    SparesMore(script, base, a, Replaced(m.writes), links, Replaced(n.writes), links, mp);
    SparesFileChange(script, base, a, b, w.file, Replaced(n.writes), links, mp);
    SparesFileChange(script, start, a, b, w.file, iset{Mark(w.file, w.before)}, iset{}, mp);
  }

  /**
   A file of the operation's holds what others alone leave, or what the operation last wrote, over
   a text that others had left.
   */
  ghost predicate OwnFile(script: Script, a: Snapshot, b: Snapshot, writes: seq<Written>, mp: Path, f: Path) {
    var alone := Alone(script, a.time, b.time, f, Get(a.files, f));
    InReach(f, mp, a.minted) && Get(b.files, f) != alone ==>
      Mark(f, alone) in Replaced(writes) && Get(b.files, f) == LastWrite(writes, f)
  }

  ghost predicate Own(script: Script, a: Snapshot, b: Snapshot, writes: seq<Written>, mp: Path) {
    a.time <= b.time && a.minted <= b.minted && forall f :: OwnFile(script, a, b, writes, mp, f)
  }

  lemma OwnTurn(script: Script, a: Snapshot, b: Snapshot, c: Snapshot, writes: seq<Written>, mp: Path)
    requires Own(script, a, b, writes, mp) && Spares(script, b, c, iset{}, iset{}, mp)
    ensures Own(script, a, c, writes, mp)
  {
    hide Replaced, LastWrite;
    forall f ensures OwnFile(script, a, c, writes, mp, f) {
      assert OwnFile(script, a, b, writes, mp, f) && SparesFile(script, b, c, iset{}, mp, f);
      AloneJoins(script, a.time, b.time, c.time, f, Get(a.files, f));
      AloneEditsOrLeaves(script, b.time, c.time, f,
        Get(b.files, f), Alone(script, a.time, b.time, f, Get(a.files, f)));
    }
  }

  lemma OwnWrite(
      script: Script, a: Snapshot, b: Snapshot, c: Snapshot, writes: seq<Written>, w: Written, mp: Path)
    requires Own(script, a, b, writes, mp) && Get(b.files, w.file) == w.before
    requires c == b.(files := Put(b.files, w.file, Some(w.after)))
    ensures Own(script, a, c, writes + [w], mp)
  {
    hide LastWrite;
    forall f ensures OwnFile(script, a, c, writes + [w], mp, f) {
      assert OwnFile(script, a, b, writes, mp, f);
      LastWriteAppend(writes, w, f);
      assert w in writes + [w] && forall v :: v in writes ==> v in writes + [w];
    }
  }

  lemma OwnSameFiles(script: Script, a: Snapshot, b: Snapshot, c: Snapshot, writes: seq<Written>, mp: Path)
    requires Own(script, a, b, writes, mp) && c.files == b.files && c.time == b.time && b.minted <= c.minted
    ensures Own(script, a, c, writes, mp)
  {
    forall f ensures OwnFile(script, a, c, writes, mp, f) {
      assert OwnFile(script, a, b, writes, mp, f);
    }
  }

  lemma OwnNothing(script: Script, a: Snapshot, b: Snapshot, mp: Path)
    requires Spares(script, a, b, iset{}, iset{}, mp)
    ensures Own(script, a, b, [], mp)
  {
    forall f ensures OwnFile(script, a, b, [], mp, f) {
      assert SparesFile(script, a, b, iset{}, mp, f);
    }
  }

  /** A link is made where there is none, or removed where it is ours. */
  lemma LinkSpares(
      script: Script, base: Snapshot, a: Snapshot, b: Snapshot, m: Memory, n: Memory, link: Path, mp: Path)
    requires Spares(script, base, a, Replaced(m.writes), LinkSet(m.linked + m.removedLinks), mp)
    requires b == a.(links := b.links) && forall k :: k != link ==> At(a.links, k) == At(b.links, k)
    requires At(b.links, link) != At(a.links, link) ==> At(a.links, link) != Some(Conflict)
    requires n == m.(linked := n.linked, removedLinks := n.removedLinks)
    requires m.linked <= n.linked && m.removedLinks <= n.removedLinks
    requires link in n.linked || link in n.removedLinks
    ensures Spares(script, base, b, Replaced(n.writes), LinkSet(n.linked + n.removedLinks), mp)
    ensures Spares(script, a, b, iset{}, iset{link}, mp)
  {
    hide Spares, SparesFile, SparesLink;
    var marks, links := Replaced(m.writes), LinkSet(n.linked + n.removedLinks);
    assert forall l :: l in m.linked ==> l in n.linked;
    assert forall l :: l in m.removedLinks ==> l in n.removedLinks;
    SparesMore(script, base, a, marks, LinkSet(m.linked + m.removedLinks), marks, links, mp);
    SparesLinkChange(script, base, a, b, link, marks, links, mp);
    SparesNow(script, a, iset{}, iset{link}, mp);
    SparesLinkChange(script, a, a, b, link, iset{}, iset{link}, mp);
  }

  lemma SparesMinting(
      script: Script, a: Snapshot, b: Snapshot, marks: iset<Mark>, links: iset<Path>, minted: nat, mp: Path)
    requires Spares(script, a, b, marks, links, mp) && b.minted <= minted
    ensures Spares(script, a, b.(minted := minted), marks, links, mp)
  {
    forall f ensures SparesFile(script, a, b.(minted := minted), marks, mp, f) {
      assert SparesFile(script, a, b, marks, mp, f);
    }
    forall l ensures SparesLink(script, a, b.(minted := minted), links, mp, l) {
      assert SparesLink(script, a, b, links, mp, l);
    }
  }

  lemma SparesNow(script: Script, a: Snapshot, marks: iset<Mark>, links: iset<Path>, mp: Path)
    ensures Spares(script, a, a, marks, links, mp)
  {
  }

  // The environment's turn.

  function TextAfter(files: Files, edits: map<Path, Option<Text>>, mp: Path, minted: nat, f: Path): Option<Text> {
    if f in edits && InReach(f, mp, minted) then edits[f] else Get(files, f)
  }

  function EditFiles(files: Files, edits: map<Path, Option<Text>>, mp: Path, minted: nat): (r: Files)
    ensures forall f :: Get(r, f) == TextAfter(files, edits, mp, minted, f)
  {
    map f | f in files.Keys + edits.Keys && TextAfter(files, edits, mp, minted, f).Some? ::
      TextAfter(files, edits, mp, minted, f).value
  }

  function LinkAfter(links: Links, edits: map<Path, Option<Link>>, mp: Path, minted: nat, l: Path): Option<Link> {
    if l in edits && InReach(l, mp, minted) then edits[l] else At(links, l)
  }

  function EditLinks(links: Links, edits: map<Path, Option<Link>>, mp: Path, minted: nat): (r: Links)
    ensures forall l :: At(r, l) == LinkAfter(links, edits, mp, minted, l)
  {
    map l | l in links.Keys + edits.Keys && LinkAfter(links, edits, mp, minted, l).Some? ::
      LinkAfter(links, edits, mp, minted, l).value
  }

  lemma TurnSpares(script: Script, a: Snapshot, b: Snapshot, mp: Path)
    requires b.time == a.time + 1 && b.minted == a.minted
    requires b.files == EditFiles(a.files, script(a.time).edits, mp, a.minted)
    requires b.links == EditLinks(a.links, script(a.time).links, mp, a.minted)
    ensures Spares(script, a, b, iset{}, iset{}, mp)
  {
    forall f ensures SparesFile(script, a, b, iset{}, mp, f) {
      assert Alone(script, a.time, a.time, f, Get(a.files, f)) == Get(a.files, f);
      assert Get(b.files, f) == TextAfter(a.files, script(a.time).edits, mp, a.minted, f);
    }
    forall l ensures SparesLink(script, a, b, iset{}, mp, l) {
      assert AloneLink(script, a.time, a.time, l, At(a.links, l)) == At(a.links, l);
      assert At(b.links, l) == LinkAfter(a.links, script(a.time).links, mp, a.minted, l);
    }
  }

  /** A file that nobody edited meanwhile changed only from a recognised text. */
  lemma SparedUntouched(
      script: Script, a: Snapshot, b: Snapshot, marks: iset<Mark>, links: iset<Path>, mp: Path, f: Path)
    requires Spares(script, a, b, marks, links, mp)
    requires InReach(f, mp, a.minted) && f !in Touched(script, a.time, b.time)
    ensures Get(b.files, f) != Get(a.files, f) ==> Mark(f, Get(a.files, f)) in marks
    ensures At(b.links, f) != At(a.links, f) ==> f in links && At(a.links, f) != Some(Conflict)
  {
    UntouchedStaysAlone(script, a.time, b.time, f, Get(a.files, f), At(a.links, f));
    assert SparesFile(script, a, b, marks, mp, f) && SparesLink(script, a, b, links, mp, f);
  }
}
