/** What an operation is asked to do, what planning makes of it, and what it means to have done it. */
module IntegrationPlan {
  import opened Common
  import opened UndoLog
  import opened IntegrationState
  import opened IntegrationSteps
  import opened IntegrationOthers

  /** A new entry or a new credential text for a registration that keeps its credential. */
  datatype Refresh = Refresh(entry: Option<Text>, secret: Option<Text>)

  /** One selected registration with what planning decided about it apart from file contents. */
  datatype Pick = Pick(
    key: string, user: bool, config: Path, links: seq<Path>, change: bool, refresh: Option<Refresh>,
    retainedEntry: bool)

  datatype Request = Request(install: bool, picks: seq<Pick>)

  datatype Planned = Planned(pick: Pick, previous: Option<Registration>, text: Option<Text>)

  /** What an edit of a config file does to a registration's entry. */
  datatype Setting = Removed | Renewed(entry: Text) | Launch(credential: Id, file: Path, secret: Text)

  /** What the editor makes of the text of a config file; `None` when it refuses. */
  type Editor = (string, Setting, Option<Text>) -> Option<Text>

  /** The work of one operation, and the two files of its own. */
  datatype Job = Job(install: bool, items: seq<Planned>, editor: Editor, manifest: Path, skill: Path)

  ghost predicate WellFormed(request: Request, mp: Path, skill: Path) {
    && (forall p :: p in request.picks ==> p.config.Plain? && p.config != mp && p.config != skill)
    && (forall i, j :: 0 <= i < j < |request.picks| ==> request.picks[i].key != request.picks[j].key)
  }

  function DropLabel(labels: seq<string>, name: string): seq<string> {
    if labels == [] then [] else if labels[0] == name then labels[1..]
    else [labels[0]] + DropLabel(labels[1..], name)
  }

  function RefreshedRow(row: Registration, secret: Option<Text>, links: seq<Path>): Registration {
    row.(digest := if secret.Some? then Hash(secret.value) else row.digest, links := links)
  }

  function Refreshed(rows: seq<Registration>, key: string, secret: Option<Text>, links: seq<Path>)
    : seq<Registration>
  {
    seq(|rows|, i requires 0 <= i < |rows| =>
      if rows[i].key == key then RefreshedRow(rows[i], secret, links) else rows[i])
  }

  /** What planning reads: the registration to replace or remove and the config file's text. */
  function PlanAll(picks: seq<Pick>, rows: seq<Registration>, files: Files): seq<Planned> {
    seq(|picks|, i requires 0 <= i < |picks| =>
      Planned(picks[i], Find(rows, picks[i].key), Get(files, picks[i].config)))
  }

  lemma {:induction false} LastWriteIsLatest(base: Files, writes: seq<Written>, file: Path)
    ensures Latest(base, Records(writes), file) ==
      if LastWrite(writes, file).Some? then LastWrite(writes, file) else Get(base, file)
  {
    if writes != [] {
      var n := |writes| - 1;
      assert Records(writes)[..n] == Records(writes[..n]);
      LastWriteIsLatest(base, writes[..n], file);
    }
  }

  lemma {:induction false} RefreshedFind(
      rows: seq<Registration>, key: string, secret: Option<Text>, links: seq<Path>, k: string)
    ensures
      var found, done := Find(rows, k), Find(Refreshed(rows, key, secret, links), k);
      if k == key && found.Some? then done == Some(RefreshedRow(found.value, secret, links)) else done == found
  {
    if rows != [] {
      RefreshedFind(rows[1..], key, secret, links, k);
      assert Refreshed(rows, key, secret, links)[1..] == Refreshed(rows[1..], key, secret, links);
    }
  }

  /** A refresh changes no key, no credential, no credential file and no other registration. */
  lemma RefreshKeepsIds(
      rows: seq<Registration>, key: string, secret: Option<Text>, links: seq<Path>, minted: nat)
    ensures GoodRows(rows, minted) ==> GoodRows(Refreshed(rows, key, secret, links), minted)
    ensures Ids(Refreshed(rows, key, secret, links)) == Ids(rows)
    ensures FilesOf(Refreshed(rows, key, secret, links)) == FilesOf(rows)
    ensures forall k :: k != key ==> Find(Refreshed(rows, key, secret, links), k) == Find(rows, k)
    ensures Find(rows, key).Some? ==>
      Find(Refreshed(rows, key, secret, links), key) == Some(RefreshedRow(Find(rows, key).value, secret, links))
  {
    var done := Refreshed(rows, key, secret, links);
    forall id ensures id in Ids(done) <==> id in Ids(rows) {
      if id in Ids(rows) {
        var i :| 0 <= i < |rows| && rows[i].credential == id;
        assert done[i] in done;
      }
    }
    forall f ensures f in FilesOf(done) <==> f in FilesOf(rows) {
      if f in FilesOf(rows) {
        var i :| 0 <= i < |rows| && rows[i].file == f;
        assert done[i] in done;
      }
    }
    RefreshedFind(rows, key, secret, links, key);
    forall k | k != key ensures Find(done, k) == Find(rows, k) {
      RefreshedFind(rows, key, secret, links, k);
    }
  }

  /** The link was made, or was there before. */
  ghost predicate IsLinked(link: Path, m: Memory, p: Past) {
    link in p.foreign || link in m.linked || At(p.before.links, link).Some?
  }

  /** The link was removed, or was not ours before. */
  ghost predicate IsUnlinked(link: Path, m: Memory, p: Past) {
    link in p.foreign || link in m.removedLinks || At(p.before.links, link) != Some(Owned)
  }

  lemma LinkedBefore(disk: Disk, m: Memory, p: Past, mp: Path, link: Path)
    requires Working(disk, m, p, mp)
    ensures At(disk.links, link) != None ==> IsLinked(link, m, p)
  {
  }

  lemma NotOursBefore(disk: Disk, m: Memory, p: Past, mp: Path, link: Path)
    requires Working(disk, m, p, mp) && m.linked == []
    ensures At(disk.links, link) != Some(Owned) ==> IsUnlinked(link, m, p)
  {
  }

  ghost predicate AllLinked(links: seq<Path>, m: Memory, p: Past) {
    forall l :: l in links ==> IsLinked(l, m, p)
  }

  ghost predicate AllUnlinked(links: seq<Path>, m: Memory, p: Past) {
    forall l :: l in links ==> IsUnlinked(l, m, p)
  }

  lemma LinkedLasts(links: seq<Path>, i: nat, m: Memory, n: Memory, p: Past, q: Past)
    requires i < |links| && AllLinked(links[..i], m, p) && IsLinked(links[i], n, q)
    requires Grown(m, n) && q.before == p.before && p.foreign <= q.foreign
    ensures AllLinked(links[..i + 1], n, q)
  {
    assert links[..i + 1] == links[..i] + [links[i]];
  }

  lemma UnlinkedLasts(links: seq<Path>, i: nat, m: Memory, n: Memory, p: Past, q: Past)
    requires i < |links| && AllUnlinked(links[..i], m, p) && IsUnlinked(links[i], n, q)
    requires Grown(m, n) && q.before == p.before && p.foreign <= q.foreign
    ensures AllUnlinked(links[..i + 1], n, q)
  {
    assert links[..i + 1] == links[..i] + [links[i]];
  }

  lemma LinkedStays(links: seq<Path>, m: Memory, n: Memory, p: Past, q: Past)
    requires AllLinked(links, m, p) && m.linked <= n.linked
    requires q.before == p.before && p.foreign <= q.foreign
    ensures AllLinked(links, n, q)
  {
  }

  lemma UnlinkedStays(links: seq<Path>, m: Memory, n: Memory, p: Past)
    requires AllUnlinked(links, m, p) && m.removedLinks <= n.removedLinks
    ensures AllUnlinked(links, n, p)
  {
  }

  /** A registration is refreshed in place rather than made anew. */
  predicate Refreshes(item: Planned) {
    item.pick.refresh.Some? && item.previous.Some?
  }

  /** The operation gives up the credential the item had. */
  predicate Replaces(item: Planned, install: bool) {
    item.previous.Some? && (install ==> item.pick.change && !Refreshes(item))
  }

  /** A new registration: a credential and a credential file that were not there, and what was asked for. */
  predicate IsNew(row: Registration, pick: Pick, known: set<Id>, minted: nat) {
    && row.credential !in known && row.file.CredentialFile? && row.file.serial >= minted
    && row.user == pick.user && row.links == pick.links
  }

  /** What becomes of an item's registration. */
  predicate Settles(item: Planned, install: bool, now: Option<Registration>, known: set<Id>, minted: nat) {
    if !install then now == None
    else if Refreshes(item) then
      now == Some(RefreshedRow(item.previous.value, item.pick.refresh.value.secret, item.pick.links))
    else if item.pick.change then now.Some? && IsNew(now.value, item.pick, known, minted)
    else now == item.previous
  }

  /** The edit of its config file that an item asks for, when the manifest is to list `rows`. */
  function SettingOf(item: Planned, install: bool, rows: seq<Registration>): Option<Setting> {
    if !install then
      if item.previous.Some? && item.pick.change && !item.pick.retainedEntry then Some(Removed) else None
    else if Refreshes(item) then
      match item.pick.refresh.value.entry
      case Some(entry) => Some(Renewed(entry))
      case None => None
    else
      match Find(rows, item.pick.key)
      case Some(row) =>
        if item.pick.change then Some(Launch(row.credential, row.file, row.digest.of)) else None
      case None => None
  }

  datatype Secret = Secret(file: Path, text: Text)

  /** The credential file an item asks for: the text its registration has the hash of. */
  function SecretOf(item: Planned, install: bool, rows: seq<Registration>): Option<Secret> {
    match Find(rows, item.pick.key)
    case None => None
    case Some(row) =>
      if install && (if Refreshes(item) then item.pick.refresh.value.secret.Some? else item.pick.change)
      then Some(Secret(row.file, row.digest.of))
      else None
  }

  /** The text of a config file once the items `from` to `n` that share it have edited it, in order. */
  function ConfigText(job: Job, rows: seq<Registration>, f: Path, text: Option<Text>, from: nat, n: nat): Option<Text>
    requires from <= n <= |job.items|
    decreases n
  {
    if n == from then text
    else
      var before, item := ConfigText(job, rows, f, text, from, n - 1), job.items[n - 1];
      var setting := SettingOf(item, job.install, rows);
      if setting.Some? && item.pick.config == f then job.editor(item.pick.key, setting.value, before) else before
  }

  lemma {:induction false} ConfigTextSame(
      job: Job, a: seq<Registration>, b: seq<Registration>, f: Path, text: Option<Text>, from: nat, n: nat)
    requires from <= n <= |job.items|
    requires forall k :: 0 <= k < n ==> Find(a, job.items[k].pick.key) == Find(b, job.items[k].pick.key)
    ensures ConfigText(job, a, f, text, from, n) == ConfigText(job, b, f, text, from, n)
    decreases n
  {
    if n > from {
      ConfigTextSame(job, a, b, f, text, from, n - 1);
    }
  }

  /** The edit of item `k` was accepted by the editor. */
  predicate EntryMade(job: Job, k: nat, rows: seq<Registration>, before: Files, foreign: set<Path>)
    requires k < |job.items|
  {
    var item := job.items[k];
    var setting, f := SettingOf(item, job.install, rows), item.pick.config;
    setting.Some? && f !in foreign ==>
      job.editor(item.pick.key, setting.value, ConfigText(job, rows, f, Get(before, f), 0, k)).Some?
  }

  // What an operation notes in memory.

  function TextNow(writes: seq<Written>, f: Path, text: Option<Text>): Option<Text> {
    if LastWrite(writes, f).Some? then LastWrite(writes, f) else text
  }

  /** What an item's writes leave in `f`: its edit of its config, its credential, or what was there. */
  predicate WritesAt(job: Job, item: Planned, m: Memory, n: Memory, f: Path) {
    var setting := SettingOf(item, job.install, n.manifest.rows);
    var secret := SecretOf(item, job.install, n.manifest.rows);
    LastWrite(n.writes, f) ==
      if setting.Some? && f == item.pick.config then
        job.editor(item.pick.key, setting.value, TextNow(m.writes, f, item.text))
      else if secret.Some? && f == secret.value.file then Some(secret.value.text)
      else LastWrite(m.writes, f)
  }

  ghost predicate WritesFor(job: Job, item: Planned, m: Memory, n: Memory) {
    var setting, f := SettingOf(item, job.install, n.manifest.rows), item.pick.config;
    && (setting.Some? ==> job.editor(item.pick.key, setting.value, TextNow(m.writes, f, item.text)).Some?)
    && (forall g :: WritesAt(job, item, m, n, g))
    && (forall w :: w in n.writes ==> w in m.writes || ReadsFirst(job, item, m, n, w))
  }

  /** A write to a config file replaces what the operation last wrote there, or what planning read. */
  predicate ReadsFirst(job: Job, item: Planned, m: Memory, n: Memory, w: Written) {
    IsConfig(job, w.file) ==>
      && w.file == item.pick.config && SettingOf(item, job.install, n.manifest.rows).Some?
      && w.before == TextNow(m.writes, w.file, item.text)
  }

  predicate SecretWritten(job: Job, item: Planned, m: Memory) {
    var secret := SecretOf(item, job.install, m.manifest.rows);
    secret.Some? ==> LastWrite(m.writes, secret.value.file) == Some(secret.value.text)
  }

  /** What the operation has done for an item, as far as it says so in memory. */
  ghost predicate Achieved(job: Job, item: Planned, m: Memory, p: Past) {
    && Settles(item, job.install, Find(m.manifest.rows, item.pick.key),
         Named(p.before.files, job.manifest), p.before.minted)
    && SecretWritten(job, item, m)
    && (Replaces(item, job.install) ==> item.previous.value in m.retired)
    && (if job.install then AllLinked(item.pick.links, m, p)
        else item.previous.Some? ==> AllUnlinked(item.previous.value.links, m, p))
  }

  predicate IsConfig(job: Job, f: Path) {
    f.Plain? && f != job.manifest && f != job.skill
  }

  /** The config file `f` holds the edits of the first `i` items. */
  predicate ConfigDone(job: Job, i: nat, m: Memory, p: Past, f: Path)
    requires i <= |job.items|
  {
    IsConfig(job, f) && f !in p.foreign ==>
      TextNow(m.writes, f, Get(p.before.files, f)) ==
        ConfigText(job, m.manifest.rows, f, Get(p.before.files, f), 0, i)
  }

  /** What the file holds is the edits of some last items over `text`. */
  ghost predicate EditsOver(
      job: Job, rows: seq<Registration>, f: Path, text: Option<Text>, i: nat, now: Option<Text>)
    requires i <= |job.items|
  {
    exists k: nat :: k <= i && now == ConfigText(job, rows, f, text, k, i)
  }

  /** Over each text that was replaced, what was last written is the edits of the items since. */
  ghost predicate SpansDone(job: Job, i: nat, m: Memory, w: Written)
    requires i <= |job.items|
  {
    IsConfig(job, w.file) ==>
      EditsOver(job, m.manifest.rows, w.file, w.before, i, LastWrite(m.writes, w.file))
  }

  /** The first `i` items are done. */
  ghost predicate DoneUpTo(job: Job, i: nat, m: Memory, p: Past)
    requires i <= |job.items|
  {
    && (forall k :: 0 <= k < i ==> Achieved(job, job.items[k], m, p))
    && (forall k: nat :: k < i ==> EntryMade(job, k, m.manifest.rows, p.before.files, p.foreign))
    && (forall f :: ConfigDone(job, i, m, p, f))
    && (forall w :: w in m.writes ==> SpansDone(job, i, m, w))
  }

  lemma AchievedLasts(job: Job, item: Planned, m: Memory, n: Memory, p: Past, q: Past)
    requires Achieved(job, item, m, p) && Grown(m, n) && m.retired <= n.retired
    requires Find(n.manifest.rows, item.pick.key) == Find(m.manifest.rows, item.pick.key)
    requires SecretWritten(job, item, n)
    requires q.before == p.before && p.foreign <= q.foreign
    ensures Achieved(job, item, n, q)
  {
  }

  /** What planning read about an item still holds where nobody else interfered. */
  ghost predicate PlanHolds(job: Job, item: Planned, p: Past) {
    && IsConfig(job, item.pick.config)
    && (item.pick.config !in p.foreign ==> item.text == Get(p.before.files, item.pick.config))
  }

  /** What planning reads is what it says it read. */
  lemma PlansHold(request: Request, job: Job, rows: seq<Registration>, files: Files, p: Past)
    requires WellFormed(request, job.manifest, job.skill) && SameFiles(files, p.before.files, p.foreign)
    requires job.install == request.install && job.items == PlanAll(request.picks, rows, files)
    ensures PlannedFor(request, job, rows)
    ensures forall k :: 0 <= k < |job.items| ==> PlanHolds(job, job.items[k], p)
    ensures forall k, l :: 0 <= k < l < |job.items| ==> job.items[k].pick.key != job.items[l].pick.key
  {
  }

  /** From `m` to `n` memory changed for item `i` only. */
  ghost predicate ChangedFor(job: Job, item: Planned, m: Memory, n: Memory) {
    && Grown(m, n) && m.retired <= n.retired
    && (forall k :: k != item.pick.key ==> Find(n.manifest.rows, k) == Find(m.manifest.rows, k))
    && WritesFor(job, item, m, n)
  }

  /** Another item's writes leave the credential file of an earlier one as it was written. */
  lemma SecretLasts(job: Job, item: Planned, other: Planned, m: Memory, n: Memory, minted: nat)
    requires SecretWritten(job, item, m) && ChangedFor(job, other, m, n) && other.pick.config.Plain?
    requires item.pick.key != other.pick.key && GoodRows(n.manifest.rows, minted)
    ensures SecretWritten(job, item, n)
  {
    var rows := n.manifest.rows;
    var secret := SecretOf(item, job.install, rows);
    if secret.Some? {
      FindFinds(rows, item.pick.key);
      FindFinds(rows, other.pick.key);
      assert WritesAt(job, other, m, n, secret.value.file);
      if Find(rows, other.pick.key).Some? {
        FilesDiffer(rows, Find(rows, item.pick.key).value, Find(rows, other.pick.key).value);
      }
    }
  }

  lemma FilesDiffer(rows: seq<Registration>, a: Registration, b: Registration)
    requires Distinct(rows) && a in rows && b in rows && a.key != b.key
    ensures a.file != b.file
  {
    var i :| 0 <= i < |rows| && rows[i] == a;
    var j :| 0 <= j < |rows| && rows[j] == b;
    assert i < j || j < i;
  }

  /** One more edit of a config file. */
  lemma ConfigLasts(job: Job, i: nat, m: Memory, n: Memory, p: Past, q: Past, f: Path)
    requires i < |job.items| && ConfigDone(job, i, m, p, f)
    requires ChangedFor(job, job.items[i], m, n) && PlanHolds(job, job.items[i], q)
    requires forall k, l :: 0 <= k < l < |job.items| ==> job.items[k].pick.key != job.items[l].pick.key
    requires forall row :: row in n.manifest.rows ==> row.file.CredentialFile?
    requires q.before == p.before && p.foreign <= q.foreign
    ensures ConfigDone(job, i + 1, n, q, f)
  {
    var item, rows, text := job.items[i], n.manifest.rows, Get(p.before.files, f);
    if IsConfig(job, f) && f !in q.foreign {
      assert WritesAt(job, item, m, n, f);
      FindFinds(rows, item.pick.key);
      ConfigTextSame(job, m.manifest.rows, rows, f, text, 0, i);
    }
  }

  /** The spans of edits grow by the new item's, if it edits that config. */
  lemma SpanLasts(job: Job, i: nat, m: Memory, n: Memory, w: Written)
    requires i < |job.items| && ChangedFor(job, job.items[i], m, n) && w in n.writes
    requires w in m.writes ==> SpansDone(job, i, m, w)
    requires forall k, l :: 0 <= k < l < |job.items| ==> job.items[k].pick.key != job.items[l].pick.key
    requires forall row :: row in n.manifest.rows ==> row.file.CredentialFile?
    ensures SpansDone(job, i + 1, n, w)
  {
    var item, rows, f := job.items[i], n.manifest.rows, w.file;
    if IsConfig(job, f) {
      assert WritesAt(job, item, m, n, f);
      FindFinds(rows, item.pick.key);
      if w in m.writes {
        WrittenIsLast(m.writes, w);
        var k: nat :| k <= i && LastWrite(m.writes, f) == ConfigText(job, m.manifest.rows, f, w.before, k, i);
        ConfigTextSame(job, m.manifest.rows, rows, f, w.before, k, i);
        assert LastWrite(n.writes, f) == ConfigText(job, rows, f, w.before, k, i + 1);
      } else {
        assert ReadsFirst(job, item, m, n, w);
        assert ConfigText(job, rows, f, w.before, i, i) == w.before;
        assert LastWrite(n.writes, f) == ConfigText(job, rows, f, w.before, i, i + 1);
      }
    }
  }

  lemma {:induction false} WrittenIsLast(writes: seq<Written>, w: Written)
    requires w in writes
    ensures LastWrite(writes, w.file).Some?
  {
    var n := |writes| - 1;
    if writes[n].file != w.file {
      WrittenIsLast(writes[..n], w);
    }
  }

  lemma EntryLasts(job: Job, k: nat, i: nat, m: Memory, n: Memory, p: Past, q: Past)
    requires k < i < |job.items| && EntryMade(job, k, m.manifest.rows, p.before.files, p.foreign)
    requires ChangedFor(job, job.items[i], m, n)
    requires forall k, l :: 0 <= k < l < |job.items| ==> job.items[k].pick.key != job.items[l].pick.key
    requires q.before == p.before && p.foreign <= q.foreign
    ensures EntryMade(job, k, n.manifest.rows, q.before.files, q.foreign)
  {
    var f := job.items[k].pick.config;
    ConfigTextSame(job, m.manifest.rows, n.manifest.rows, f, Get(p.before.files, f), 0, k);
  }

  lemma EntryIsMade(job: Job, i: nat, m: Memory, n: Memory, p: Past, q: Past)
    requires i < |job.items| && ConfigDone(job, i, m, p, job.items[i].pick.config)
    requires ChangedFor(job, job.items[i], m, n) && PlanHolds(job, job.items[i], q)
    requires forall k, l :: 0 <= k < l < |job.items| ==> job.items[k].pick.key != job.items[l].pick.key
    requires q.before == p.before && p.foreign <= q.foreign
    ensures EntryMade(job, i, n.manifest.rows, q.before.files, q.foreign)
  {
    var f := job.items[i].pick.config;
    ConfigTextSame(job, m.manifest.rows, n.manifest.rows, f, Get(p.before.files, f), 0, i);
  }

  /** Another item done leaves the earlier ones done. */
  lemma OneMoreDone(job: Job, i: nat, m: Memory, n: Memory, p: Past, q: Past, minted: nat)
    requires i < |job.items| && DoneUpTo(job, i, m, p)
    requires Achieved(job, job.items[i], n, q) && ChangedFor(job, job.items[i], m, n)
    requires forall k :: 0 <= k < |job.items| ==> PlanHolds(job, job.items[k], q)
    requires forall k, l :: 0 <= k < l < |job.items| ==> job.items[k].pick.key != job.items[l].pick.key
    requires GoodRows(n.manifest.rows, minted)
    requires q.before == p.before && p.foreign <= q.foreign
    ensures DoneUpTo(job, i + 1, n, q)
    ensures OthersKept(job, m.manifest.rows, n.manifest.rows)
  {
    hide SettingOf, SecretOf, Settles, ConfigText, SecretWritten, ConfigDone, EntryMade, WritesFor, SpansDone;
    forall k | 0 <= k < i ensures Achieved(job, job.items[k], n, q) {
      assert Achieved(job, job.items[k], m, p);
      SecretLasts(job, job.items[k], job.items[i], m, n, minted);
      AchievedLasts(job, job.items[k], m, n, p, q);
    }
    forall k: nat | k <= i ensures EntryMade(job, k, n.manifest.rows, q.before.files, q.foreign) {
      if k < i {
        EntryLasts(job, k, i, m, n, p, q);
      } else {
        assert ConfigDone(job, i, m, p, job.items[i].pick.config);
        EntryIsMade(job, i, m, n, p, q);
      }
    }
    var next := i + 1;
    forall f ensures ConfigDone(job, next, n, q, f) {
      assert ConfigDone(job, i, m, p, f);
      ConfigLasts(job, i, m, n, p, q, f);
    }
    forall w | w in n.writes ensures SpansDone(job, next, n, w) {
      SpanLasts(job, i, m, n, w);
    }
  }

  lemma NothingDone(job: Job, m: Memory, p: Past)
    requires m.writes == [] || (|m.writes| == 1 && m.writes[0].file == job.skill)
    ensures DoneUpTo(job, 0, m, p)
  {
    if m.writes != [] {
      assert m.writes[..0] == [];
    }
    forall f {:trigger IsConfig(job, f)} | IsConfig(job, f) ensures LastWrite(m.writes, f) == None {
    }
  }

  /** The last write, of the manifest itself, leaves everything done. */
  lemma ManifestLasts(job: Job, m: Memory, n: Memory, p: Past, q: Past, w: Written, minted: nat)
    requires DoneUpTo(job, |job.items|, m, p) && n == m.(writes := m.writes + [w]) && w.file == job.manifest
    requires GoodRows(m.manifest.rows, minted) && job.manifest.Plain?
    requires q.before == p.before && p.foreign <= q.foreign
    ensures DoneUpTo(job, |job.items|, n, q)
  {
    var done := |job.items|;
    forall k | 0 <= k < done ensures Achieved(job, job.items[k], n, q) {
      var item := job.items[k];
      assert Achieved(job, item, m, p);
      FindFinds(m.manifest.rows, item.pick.key);
      var secret := SecretOf(item, job.install, m.manifest.rows);
      if secret.Some? {
        LastWriteAppend(m.writes, w, secret.value.file);
      }
      AchievedLasts(job, item, m, n, p, q);
    }
    forall k: nat | k < done ensures EntryMade(job, k, n.manifest.rows, q.before.files, q.foreign) {
      assert EntryMade(job, k, m.manifest.rows, p.before.files, p.foreign);
    }
    forall f ensures ConfigDone(job, done, n, q, f) {
      assert ConfigDone(job, done, m, p, f);
      LastWriteAppend(m.writes, w, f);
    }
    forall v | v in n.writes ensures SpansDone(job, done, n, v) {
      if v != w {
        assert v in m.writes && SpansDone(job, done, m, v);
        LastWriteAppend(m.writes, w, v.file);
      }
    }
  }

  // The writes of one item.

  lemma NoWrites(job: Job, item: Planned, m: Memory, n: Memory)
    requires n.writes == m.writes
    requires SettingOf(item, job.install, n.manifest.rows) == None
    requires SecretOf(item, job.install, n.manifest.rows) == None
    ensures WritesFor(job, item, m, n)
  {
  }

  /** A new registration: its credential file, then the entry that names it. */
  lemma EnteredWrites(job: Job, item: Planned, m: Memory, n: Memory, row: Registration, after: Text)
    requires job.install && item.pick.change && !Refreshes(item) && item.pick.config.Plain?
    requires Find(n.manifest.rows, item.pick.key) == Some(row) && row.file.CredentialFile?
    requires
      var before := TextNow(m.writes, item.pick.config, item.text);
      && job.editor(item.pick.key, Launch(row.credential, row.file, row.digest.of), before) == Some(after)
      && n.writes == m.writes + [Written(row.file, None, row.digest.of), Written(item.pick.config, before, after)]
    ensures WritesFor(job, item, m, n)
  {
    var before, config := TextNow(m.writes, item.pick.config, item.text), item.pick.config;
    var first := m.writes + [Written(row.file, None, row.digest.of)];
    assert n.writes == first + [Written(config, before, after)];
    forall f ensures WritesAt(job, item, m, n, f) {
      LastWriteAppend(m.writes, Written(row.file, None, row.digest.of), f);
      LastWriteAppend(first, Written(config, before, after), f);
    }
  }

  /** The edit of one config file and nothing else. */
  lemma EditedWrites(job: Job, item: Planned, m: Memory, n: Memory, setting: Setting, after: Text)
    requires SettingOf(item, job.install, n.manifest.rows) == Some(setting)
    requires SecretOf(item, job.install, n.manifest.rows) == None
    requires
      var before := TextNow(m.writes, item.pick.config, item.text);
      && job.editor(item.pick.key, setting, before) == Some(after)
      && n.writes == m.writes + [Written(item.pick.config, before, after)]
    ensures WritesFor(job, item, m, n)
  {
    var before := TextNow(m.writes, item.pick.config, item.text);
    forall f ensures WritesAt(job, item, m, n, f) {
      LastWriteAppend(m.writes, Written(item.pick.config, before, after), f);
    }
  }

  /** The writes of a refresh: the entry if there is a new one, then the credential file if there is. */
  ghost predicate RefreshWrites(job: Job, item: Planned, refresh: Refresh, file: Path, a: seq<Written>, b: seq<Written>) {
    var before := TextNow(a, item.pick.config, item.text);
    var after :=
      if refresh.entry.Some? then job.editor(item.pick.key, Renewed(refresh.entry.value), before) else None;
    && (refresh.entry.Some? ==> after.Some?)
    && var mid := if after.Some? then a + [Written(item.pick.config, before, after.value)] else a;
       if refresh.secret.Some? then
         |b| == |mid| + 1 && mid <= b && b[|mid|].file == file && b[|mid|].after == refresh.secret.value
       else b == mid
  }

  lemma RefreshedWrites(job: Job, item: Planned, m: Memory, n: Memory)
    requires job.install && Refreshes(item) && item.pick.config.Plain? && item.previous.value.file.CredentialFile?
    requires RefreshWrites(job, item, item.pick.refresh.value, item.previous.value.file, m.writes, n.writes)
    requires Find(n.manifest.rows, item.pick.key) ==
      Some(RefreshedRow(item.previous.value, item.pick.refresh.value.secret, item.pick.links))
    ensures WritesFor(job, item, m, n)
  {
    var refresh, config := item.pick.refresh.value, item.pick.config;
    var before := TextNow(m.writes, config, item.text);
    var mid := m.writes;
    if refresh.entry.Some? {
      mid := mid + [Written(config, before, job.editor(item.pick.key, Renewed(refresh.entry.value), before).value)];
    }
    forall f ensures WritesAt(job, item, m, n, f) {
      if refresh.entry.Some? {
        LastWriteAppend(m.writes, mid[|m.writes|], f);
      }
      if refresh.secret.Some? {
        assert n.writes == mid + [n.writes[|mid|]];
        LastWriteAppend(mid, n.writes[|mid|], f);
      }
    }
  }

  lemma SecretIsWritten(a: seq<Written>, b: seq<Written>, file: Path, secret: Text)
    requires |b| == |a| + 2 && a <= b
    requires b[|a|].file == file && b[|a|].after == secret && b[|a| + 1].file != file
    ensures LastWrite(b, file) == Some(secret)
  {
    var first := a + [b[|a|]];
    assert b == first + [b[|a| + 1]];
    LastWriteAppend(a, b[|a|], file);
    LastWriteAppend(first, b[|a| + 1], file);
  }

  lemma RefreshedSecret(job: Job, item: Planned, m: Memory, n: Memory)
    requires WritesFor(job, item, m, n) && item.pick.config.Plain?
    requires Refreshes(item) && item.previous.value.file.CredentialFile?
    requires Find(n.manifest.rows, item.pick.key) ==
      Some(RefreshedRow(item.previous.value, item.pick.refresh.value.secret, item.pick.links))
    ensures SecretWritten(job, item, n)
  {
    var secret := SecretOf(item, job.install, n.manifest.rows);
    if secret.Some? {
      assert WritesAt(job, item, m, n, secret.value.file);
    }
  }

  /** Links made or removed besides do not matter for what was written. */
  lemma ChangedBesideLinks(job: Job, item: Planned, m: Memory, linked: Memory, n: Memory)
    requires linked == m.(linked := linked.linked) && m.linked <= linked.linked
    requires ChangedFor(job, item, linked, n)
    ensures ChangedFor(job, item, m, n)
  {
    forall f ensures WritesAt(job, item, m, n, f) {
      assert WritesAt(job, item, linked, n, f);
    }
  }

  /**
   A config file, edited by others or not, holds the edits of some last items over exactly the text
   that others alone leave in it: nothing they wrote was replaced unread.
   */
  ghost predicate HeldConfig(
      job: Job, rows: seq<Registration>, script: Script, a: Snapshot, b: Snapshot, f: Path)
  {
    EditsOver(job, rows, f, Alone(script, a.time, b.time, f, Get(a.files, f)), |job.items|, Get(b.files, f))
  }

  ghost predicate ConfigsHeld(job: Job, rows: seq<Registration>, script: Script, a: Snapshot, b: Snapshot) {
    forall k: nat :: k < |job.items| ==> HeldConfig(job, rows, script, a, b, job.items[k].pick.config)
  }

  lemma OwnIsHeld(job: Job, script: Script, a: Snapshot, b: Snapshot, m: Memory, p: Past, f: Path)
    requires DoneUpTo(job, |job.items|, m, p) && Own(script, a, b, m.writes, job.manifest) && IsConfig(job, f)
    ensures HeldConfig(job, m.manifest.rows, script, a, b, f)
  {
    var n, alone := |job.items|, Alone(script, a.time, b.time, f, Get(a.files, f));
    assert OwnFile(script, a, b, m.writes, job.manifest, f);
    if Get(b.files, f) == alone {
      assert alone == ConfigText(job, m.manifest.rows, f, alone, n, n);
    } else {
      var w :| w in m.writes && w.file == f && w.before == alone;
      assert SpansDone(job, n, m, w);
    }
  }

  /** Later edits of others, and what finishing removes, leave it so. */
  lemma HeldLasts(
      job: Job, rows: seq<Registration>, script: Script, a: Snapshot, b: Snapshot, c: Snapshot,
      marks: iset<Mark>, links: iset<Path>, f: Path)
    requires HeldConfig(job, rows, script, a, b, f) && a.time <= b.time
    requires Spares(script, b, c, marks, links, job.manifest)
    requires IsConfig(job, f) && forall m :: m in marks ==> m.file != f
    ensures HeldConfig(job, rows, script, a, c, f)
  {
    var n, text := |job.items|, Alone(script, a.time, b.time, f, Get(a.files, f));
    var alone := Alone(script, a.time, c.time, f, Get(a.files, f));
    assert SparesFile(script, b, c, marks, job.manifest, f);
    AloneJoins(script, a.time, b.time, c.time, f, Get(a.files, f));
    AloneEditsOrLeaves(script, b.time, c.time, f, Get(b.files, f), text);
    if Get(c.files, f) == alone {
      assert alone == ConfigText(job, rows, f, alone, n, n);
    }
  }

  // What an operation leaves on disk.

  /** What an item's success means for the manifest, the links and its credential file. */
  ghost predicate Accomplished(
      job: Job, item: Planned, before: Snapshot, files: Files, links: Links, foreign: set<Path>)
  {
    var rows := RowsOf(files, job.manifest);
    var secret := SecretOf(item, job.install, rows);
    && Settles(item, job.install, Find(rows, item.pick.key), Named(before.files, job.manifest), before.minted)
    && (secret.Some? && secret.value.file !in foreign ==> Get(files, secret.value.file) == Some(secret.value.text))
    && (if job.install then forall l :: l in item.pick.links && l !in foreign ==> At(links, l).Some?
        else item.previous.Some? ==>
          forall l :: l in item.previous.value.links && l !in foreign ==> At(links, l) != Some(Owned))
  }

  /** The config of item `k` holds the edits of all the items that share it, over what was there before. */
  ghost predicate ConfigEdited(job: Job, k: nat, before: Files, files: Files, foreign: set<Path>)
    requires k < |job.items|
  {
    var f, rows := job.items[k].pick.config, RowsOf(files, job.manifest);
    && (f !in foreign ==> Get(files, f) == ConfigText(job, rows, f, Get(before, f), 0, |job.items|))
    && EntryMade(job, k, rows, before, foreign)
  }

  /** One plan per pick, over the registrations there were before. */
  ghost predicate PlannedFor(request: Request, job: Job, rows: seq<Registration>) {
    && job.install == request.install && |job.items| == |request.picks|
    && forall k :: 0 <= k < |job.items| ==>
         && job.items[k].pick == request.picks[k]
         && job.items[k].previous == Find(rows, job.items[k].pick.key)
  }

  /** Every planned item was carried out. */
  ghost predicate Carried(job: Job, before: Snapshot, files: Files, links: Links, foreign: set<Path>) {
    && (forall k :: 0 <= k < |job.items| ==> Accomplished(job, job.items[k], before, files, links, foreign))
    && (forall k: nat :: k < |job.items| ==> ConfigEdited(job, k, before.files, files, foreign))
  }

  ghost predicate IsPicked(job: Job, key: string) {
    exists k :: 0 <= k < |job.items| && job.items[k].pick.key == key
  }

  /** Registrations the request does not name are as they were. */
  ghost predicate OthersKept(job: Job, before: seq<Registration>, rows: seq<Registration>) {
    forall key :: !IsPicked(job, key) ==> Find(rows, key) == Find(before, key)
  }

  predicate FileOf(item: Planned, f: Path) {
    item.pick.config == f || (item.previous.Some? && item.previous.value.file == f)
  }

  predicate LinkOf(item: Planned, l: Path) {
    l in item.pick.links || (item.previous.Some? && l in item.previous.value.links)
  }

  /** A file an operation has business with: its own two, those of its items, and new credential files. */
  ghost predicate IsBusiness(job: Job, f: Path, minted: nat) {
    || f == job.manifest || f == job.skill
    || (f.CredentialFile? && f.serial >= minted)
    || (exists k :: 0 <= k < |job.items| && FileOf(job.items[k], f))
  }

  ghost predicate IsBusinessLink(job: Job, l: Path) {
    exists k :: 0 <= k < |job.items| && LinkOf(job.items[k], l)
  }

  ghost function Business(job: Job, minted: nat): iset<Mark> {
    iset m: Mark | IsBusiness(job, m.file, minted)
  }

  ghost function BusinessLinks(job: Job): iset<Path> {
    iset l: Path | IsBusinessLink(job, l)
  }

  ghost predicate FilesKept(job: Job, before: Snapshot, files: Files, foreign: set<Path>) {
    forall f :: f !in foreign && Get(files, f) != Get(before.files, f) ==> IsBusiness(job, f, before.minted)
  }

  ghost predicate LinksKept(job: Job, before: Links, links: Links, foreign: set<Path>) {
    forall l :: l !in foreign && At(links, l) != At(before, l) ==> IsBusinessLink(job, l)
  }

  /**
   The files and links there are now are what the request makes of those there were before:
   its items are carried out and everything else is as it was.
   */
  ghost predicate Effected(
      request: Request, job: Job, before: Snapshot, files: Files, links: Links, foreign: set<Path>)
  {
    && PlannedFor(request, job, RowsOf(before.files, job.manifest))
    && Carried(job, before, files, links, foreign)
    && OthersKept(job, RowsOf(before.files, job.manifest), RowsOf(files, job.manifest))
    && FilesKept(job, before, files, foreign)
    && LinksKept(job, before.links, links, foreign)
  }

  /** The credentials the request replaces or removes are not live. */
  ghost predicate GivenUp(job: Job, live: set<Id>) {
    forall k :: 0 <= k < |job.items| && Replaces(job.items[k], job.install) ==>
      job.items[k].previous.value.credential !in live
  }

  /** The journal retires what the items give up, and only files of theirs that no registration has now. */
  ghost predicate Retires(job: Job, rows: seq<Registration>, j: Journal) {
    && (forall k :: 0 <= k < |job.items| && Replaces(job.items[k], job.install) ==>
          job.items[k].previous.value.credential in RetiredIds(j.retired))
    && (forall r :: r in j.retired ==>
          r.file.CredentialFile? && (exists k :: 0 <= k < |job.items| && FileOf(job.items[k], r.file)))
    && (forall r, row :: r in j.retired && row in rows ==> row.file != r.file)
    && (forall row :: row in rows ==> row.file.CredentialFile?)
    && (forall c :: c in j.cleanup ==> c.file == job.skill)
    && job.skill.Plain? && job.manifest.Plain?
    && (forall k :: 0 <= k < |job.items| ==> IsConfig(job, job.items[k].pick.config))
  }

  /** A committed file that registrations name or items edited is not one to remove. */
  lemma KeptByFinish(job: Job, rows: seq<Registration>, disk: Disk, j: Journal, past: Past, f: Path)
    requires Retires(job, rows, j) && AsCommitted(disk, j, past, job.manifest) && f !in past.foreign
    requires (exists row :: row in rows && row.file == f) || IsConfig(job, f)
    ensures Get(disk.files, f) == Get(past.committed.files, f)
  {
  }

  lemma ItemKeptByFinish(
      job: Job, item: Planned, disk: Disk, j: Journal, past: Past, foreign: set<Path>)
    requires Accomplished(job, item, past.before, past.committed.files, past.committed.links, foreign)
    requires Retires(job, RowsOf(past.committed.files, job.manifest), j) && foreign <= past.foreign
    requires AsCommitted(disk, j, past, job.manifest)
    requires RowsOf(disk.files, job.manifest) == RowsOf(past.committed.files, job.manifest)
    ensures Accomplished(job, item, past.before, disk.files, disk.links, past.foreign)
  {
    var rows := RowsOf(disk.files, job.manifest);
    FindFinds(rows, item.pick.key);
    var secret := SecretOf(item, job.install, rows);
    if secret.Some? && secret.value.file !in past.foreign {
      KeptByFinish(job, rows, disk, j, past, secret.value.file);
    }
  }

  /** What was committed and then finished is what was asked for. */
  lemma FinishedIsEffected(
      request: Request, job: Job, disk: Disk, j: Journal, past: Past, foreign: set<Path>)
    requires Effected(request, job, past.before, past.committed.files, past.committed.links, foreign)
    requires Retires(job, RowsOf(past.committed.files, job.manifest), j) && foreign <= past.foreign
    requires AsCommitted(disk, j, past, job.manifest)
    requires RowsOf(disk.files, job.manifest) == RowsOf(past.committed.files, job.manifest)
    requires forall r :: r in j.retired ==> r.id !in disk.live
    ensures Effected(request, job, past.before, disk.files, disk.links, past.foreign)
    ensures GivenUp(job, disk.live)
  {
    hide Settles, SecretOf, SettingOf, ConfigText, IsConfig;
    forall k | 0 <= k < |job.items|
      ensures Accomplished(job, job.items[k], past.before, disk.files, disk.links, past.foreign)
    {
      ItemKeptByFinish(job, job.items[k], disk, j, past, foreign);
    }
    forall k: nat | k < |job.items| ensures ConfigEdited(job, k, past.before.files, disk.files, past.foreign) {
      assert ConfigEdited(job, k, past.before.files, past.committed.files, foreign);
      if job.items[k].pick.config !in past.foreign {
        KeptByFinish(job, RowsOf(disk.files, job.manifest), disk, j, past, job.items[k].pick.config);
      }
    }
    forall f | f !in past.foreign && Get(disk.files, f) != Get(past.before.files, f)
      ensures IsBusiness(job, f, past.before.minted)
    {
      if Get(disk.files, f) != Get(past.committed.files, f) {
        assert Removable(j, past.committed.files, job.manifest, f);
      }
    }
  }

  /** What others do meanwhile is all that a committed state can differ in. */
  lemma PromiseLasts(
      request: Request, job: Job, before: Snapshot, committed: Snapshot, p: set<Path>, q: set<Path>)
    requires Effected(request, job, before, committed.files, committed.links, p) && p <= q
    ensures Effected(request, job, before, committed.files, committed.links, q)
  {
    hide Settles, SecretOf, SettingOf, ConfigText;
    forall k | 0 <= k < |job.items|
      ensures Accomplished(job, job.items[k], before, committed.files, committed.links, q)
    {
      assert Accomplished(job, job.items[k], before, committed.files, committed.links, p);
    }
    forall k: nat | k < |job.items| ensures ConfigEdited(job, k, before.files, committed.files, q) {
      assert ConfigEdited(job, k, before.files, committed.files, p);
    }
  }

  /** The journal names files and links of the job only. */
  ghost predicate JournalOf(job: Job, j: Journal, minted: nat) {
    && (forall e :: e in j.writes ==> IsBusiness(job, e.file, minted))
    && (forall l :: l in j.linked || l in j.removedLinks ==> IsBusinessLink(job, l))
    && (if job.install then j.removedLinks == [] else j.linked == [])
  }

  ghost predicate RetiredOf(job: Job, retired: seq<Registration>) {
    forall r :: r in retired ==> exists k :: 0 <= k < |job.items| && job.items[k].previous == Some(r)
  }

  lemma JournalMore(job: Job, j: Journal, e: Entry, minted: nat)
    requires JournalOf(job, j, minted) && IsBusiness(job, e.file, minted)
    ensures JournalOf(job, j.(writes := j.writes + [e]), minted)
  {
    hide IsBusiness, IsBusinessLink;
  }

  lemma JournalOneLink(job: Job, j: Journal, link: Path, minted: nat)
    requires JournalOf(job, j, minted) && IsBusinessLink(job, link)
    ensures
      if job.install then j.removedLinks == [] && JournalOf(job, j.(linked := j.linked + [link]), minted)
      else j.linked == [] && JournalOf(job, j.(removedLinks := j.removedLinks + [link]), minted)
  {
    hide IsBusiness, IsBusinessLink;
  }

  lemma JournalIds(job: Job, j: Journal, issued: seq<Id>, issuing: seq<string>, minted: nat)
    requires JournalOf(job, j, minted)
    ensures JournalOf(job, j.(issued := issued, issuing := issuing), minted)
  {
    hide IsBusiness, IsBusinessLink;
  }

  /** So what the journal's writes and links may meet is the job's business. */
  lemma JournalIsBusiness(job: Job, j: Journal, minted: nat)
    requires JournalOf(job, j, minted)
    ensures Left(j.writes) <= Business(job, minted)
    ensures LinkSet(j.linked + j.removedLinks) <= BusinessLinks(job)
  {
  }

  lemma MemoryIsBusiness(job: Job, j: Journal, m: Memory, minted: nat)
    requires JournalOf(job, j, minted) && Records(m.writes) <= j.writes
    requires m.linked <= j.linked && m.removedLinks <= j.removedLinks
    ensures Replaced(m.writes) <= Business(job, minted)
    ensures Left(Records(m.writes)) <= Business(job, minted)
    ensures LinkSet(m.linked + m.removedLinks) <= BusinessLinks(job)
  {
    forall i | 0 <= i < |m.writes| ensures IsBusiness(job, m.writes[i].file, minted) {
      assert Records(m.writes)[i] == j.writes[i];
      assert j.writes[i] in j.writes;
    }
    assert forall l :: l in m.linked ==> l in j.linked;
    assert forall l :: l in m.removedLinks ==> l in j.removedLinks;
  }

  /** Nothing that finishing removes is a config file. */
  lemma RetiringKeepsConfigs(
      job: Job, rows: seq<Registration>, j: Journal, script: Script, a: Snapshot, b: Snapshot, c: Snapshot)
    requires Retires(job, rows, j) && ConfigsHeld(job, rows, script, a, b) && a.time <= b.time
    requires Spares(script, b, c, ToRemove(j), iset{}, job.manifest)
    ensures ConfigsHeld(job, rows, script, a, c)
  {
    forall k: nat | k < |job.items| ensures HeldConfig(job, rows, script, a, c, job.items[k].pick.config) {
      HeldLasts(job, rows, script, a, b, c, ToRemove(j), iset{}, job.items[k].pick.config);
    }
  }

  lemma RetiringIsBusiness(job: Job, rows: seq<Registration>, j: Journal, minted: nat)
    requires Retires(job, rows, j)
    ensures ToRemove(j) <= Business(job, minted)
  {
  }

  /** A file that changed was written. */
  lemma {:induction false} ChangedIsWritten(base: Files, log: seq<Entry>, f: Path)
    requires Latest(base, log, f) != Get(base, f)
    ensures exists e :: e in log && e.file == f
  {
    var n := |log| - 1;
    if log[n].file != f {
      ChangedIsWritten(base, log[..n], f);
    }
  }

  /** An operation changed nothing but what it noted. */
  lemma OnlyNotedChanged(job: Job, disk: Disk, m: Memory, past: Past)
    requires Working(disk, m, past, job.manifest) && InSync(disk, m)
    requires JournalOf(job, Pending(disk), past.before.minted)
    ensures FilesKept(job, past.before, disk.files, past.foreign)
    ensures LinksKept(job, past.before.links, disk.links, past.foreign)
  {
    forall f | f !in past.foreign && Get(disk.files, f) != Get(past.before.files, f)
      ensures IsBusiness(job, f, past.before.minted)
    {
      ChangedIsWritten(past.before.files, Records(m.writes), f);
    }
  }

  lemma AchievedIsAccomplished(job: Job, item: Planned, disk: Disk, m: Memory, p: Past)
    requires Achieved(job, item, m, p) && Working(disk, m, p, job.manifest)
    requires if job.install then m.removedLinks == [] else m.linked == []
    requires Get(disk.files, job.manifest) == Some(ManifestText(m.manifest))
    ensures Accomplished(job, item, p.before, disk.files, disk.links, p.foreign)
  {
    var secret := SecretOf(item, job.install, m.manifest.rows);
    if secret.Some? {
      LastWriteIsLatest(p.before.files, m.writes, secret.value.file);
    }
  }

  lemma DoneIsEdited(job: Job, k: nat, disk: Disk, m: Memory, p: Past)
    requires k < |job.items| && DoneUpTo(job, |job.items|, m, p) && Working(disk, m, p, job.manifest)
    requires IsConfig(job, job.items[k].pick.config)
    requires Get(disk.files, job.manifest) == Some(ManifestText(m.manifest))
    ensures ConfigEdited(job, k, p.before.files, disk.files, p.foreign)
  {
    var f := job.items[k].pick.config;
    assert ConfigDone(job, |job.items|, m, p, f);
    LastWriteIsLatest(p.before.files, m.writes, f);
    assert EntryMade(job, k, m.manifest.rows, p.before.files, p.foreign);
  }

  lemma GivenUpIsRetired(job: Job, m: Memory, p: Past, retired: seq<Retired>, k: nat)
    requires k < |job.items| && Achieved(job, job.items[k], m, p) && Replaces(job.items[k], job.install)
    requires retired == Retire(m.retired)
    ensures job.items[k].previous.value.credential in RetiredIds(retired)
  {
    var i :| 0 <= i < |m.retired| && m.retired[i] == job.items[k].previous.value;
    assert retired[i] in retired;
  }

  lemma RetiredIsOurs(job: Job, m: Memory, minted: nat, known: set<Id>, retired: seq<Retired>, r: Retired)
    requires RetiredOf(job, m.retired) && retired == Retire(m.retired) && r in retired
    requires Books(m.manifest.rows, m.retired, minted, known)
    ensures r.file.CredentialFile? && (exists k :: 0 <= k < |job.items| && FileOf(job.items[k], r.file))
    ensures forall row :: row in m.manifest.rows ==> row.file != r.file
  {
    var i :| 0 <= i < |m.retired| && retired[i] == r;
    assert m.retired[i] in m.retired && r.file in FilesOf(m.retired);
    var k :| 0 <= k < |job.items| && job.items[k].previous == Some(m.retired[i]);
    assert FileOf(job.items[k], r.file);
    forall row | row in m.manifest.rows ensures row.file != r.file {
      assert row.file in FilesOf(m.manifest.rows);
    }
  }

  /** The journal that is committed retires what memory says was retired. */
  lemma RetiredAsNoted(job: Job, m: Memory, p: Past, minted: nat, known: set<Id>, j: Journal)
    requires forall k :: 0 <= k < |job.items| ==> Achieved(job, job.items[k], m, p)
    requires RetiredOf(job, m.retired) && j.retired == Retire(m.retired)
    requires Books(m.manifest.rows, m.retired, minted, known)
    requires forall c :: c in j.cleanup ==> c.file == job.skill
    requires job.skill.Plain? && job.manifest.Plain?
    requires forall k :: 0 <= k < |job.items| ==> IsConfig(job, job.items[k].pick.config)
    ensures Retires(job, m.manifest.rows, j)
  {
    assert forall row :: row in m.manifest.rows ==> row.file.CredentialFile?;
    hide Achieved, Retire, Books, RetiredOf, RetiredIds, IsConfig, FileOf;
    forall k | 0 <= k < |job.items| && Replaces(job.items[k], job.install)
      ensures job.items[k].previous.value.credential in RetiredIds(j.retired)
    {
      GivenUpIsRetired(job, m, p, j.retired, k);
    }
    forall r | r in j.retired
      ensures r.file.CredentialFile? && (exists k :: 0 <= k < |job.items| && FileOf(job.items[k], r.file))
      ensures forall row :: row in m.manifest.rows ==> row.file != r.file
    {
      RetiredIsOurs(job, m, minted, known, j.retired, r);
    }
  }
}
