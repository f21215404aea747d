/**
 The write-ahead undo log of an integration operation, as values: what a journal entry records,
 which texts a file may hold while the log is pending, and what undoing the log does.
 */
module UndoLog {
  import opened Common

  datatype Path =
    | Plain(name: string)
    | CredentialFile(serial: nat)  // the file names made from a random UUID

  type Id = nat

  /** A registration in the manifest; `key` stands for target, scope and workspace root. */
  datatype Registration = Registration(
    key: string, user: bool, credential: Id, file: Path, digest: Digest, links: seq<Path>)

  datatype Manifest = Manifest(skill: Option<Digest>, rows: seq<Registration>)

  /** File contents. Printing and parsing a manifest is the identity here. */
  datatype Text = Body(body: string) | ManifestText(manifest: Manifest)

  /** A collision-free hash. */
  datatype Digest = Sha256(of: Text)

  function Hash(text: Text): Digest {
    Sha256(text)
  }

  type Files = map<Path, Text>

  function Get(files: Files, file: Path): Option<Text> {
    if file in files then Some(files[file]) else None
  }

  function Put(files: Files, file: Path, text: Option<Text>): Files {
    if text.Some? then files[file := text.value] else files - {file}
  }

  /** A journaled write: the previous text and the hash of the new one. */
  datatype Entry = Entry(file: Path, before: Option<Text>, afterHash: Digest)

  /** The text `file` has once all of `log` has been applied over `base`. */
  function Latest(base: Files, log: seq<Entry>, file: Path): Option<Text> {
    if log == [] then Get(base, file)
    else
      var last := log[|log| - 1];
      if last.file == file then Some(last.afterHash.of) else Latest(base, log[..|log| - 1], file)
  }

  /** Every text `file` went through: the one in `base` and the result of each write to it. */
  function Texts(base: Files, log: seq<Entry>, file: Path): set<Option<Text>> {
    if log == [] then {Get(base, file)}
    else
      var last := log[|log| - 1];
      Texts(base, log[..|log| - 1], file)
      + (if last.file == file then {Some(last.afterHash.of)} else {})
  }

  /** Each write to a file nobody else touched starts from the result of the previous one. */
  ghost predicate Chained(base: Files, log: seq<Entry>, foreign: set<Path>) {
    forall i :: 0 <= i < |log| && log[i].file !in foreign ==>
      log[i].before == Latest(base, log[..i], log[i].file)
  }

  /** Files nobody else touched hold one of the texts they went through. */
  ghost predicate Within(base: Files, files: Files, log: seq<Entry>, foreign: set<Path>) {
    forall f :: f !in foreign ==> Get(files, f) in Texts(base, log, f)
  }

  /** Files nobody else touched hold the text the log ends with. */
  ghost predicate Exact(base: Files, files: Files, log: seq<Entry>, foreign: set<Path>) {
    forall f :: f !in foreign ==> Get(files, f) == Latest(base, log, f)
  }

  ghost predicate SameFiles(a: Files, b: Files, foreign: set<Path>) {
    forall f :: f !in foreign ==> Get(a, f) == Get(b, f)
  }

  /** What recovery does with one entry. */
  function UndoOne(files: Files, entry: Entry): Files {
    if Get(files, entry.file) == Some(entry.afterHash.of)
    then Put(files, entry.file, entry.before)
    else files
  }

  /** Recovery of the files, newest entry first, stopped after `steps` entries. */
  function Undo(files: Files, log: seq<Entry>, steps: nat): Files {
    if steps == 0 || log == [] then files
    else Undo(UndoOne(files, log[|log| - 1]), log[..|log| - 1], steps - 1)
  }

  /** One recovery after another, the i-th stopped after `stops[i]` entries. */
  function UndoAgain(files: Files, log: seq<Entry>, stops: seq<nat>): Files
    decreases |stops|
  {
    if stops == [] then files
    else UndoAgain(Undo(files, log, stops[0]), log, stops[1..])
  }

  lemma {:induction false} LatestIsOneOfTheTexts(base: Files, log: seq<Entry>, f: Path)
    ensures Latest(base, log, f) in Texts(base, log, f)
  {
    if log != [] {
      LatestIsOneOfTheTexts(base, log[..|log| - 1], f);
    }
  }

  lemma ExactIsWithin(base: Files, files: Files, log: seq<Entry>, foreign: set<Path>)
    requires Exact(base, files, log, foreign)
    ensures Within(base, files, log, foreign)
  {
    forall f | f !in foreign ensures Get(files, f) in Texts(base, log, f) {
      LatestIsOneOfTheTexts(base, log, f);
    }
  }

  lemma ChainedPrefix(base: Files, log: seq<Entry>, foreign: set<Path>, n: nat)
    requires Chained(base, log, foreign) && n <= |log|
    ensures Chained(base, log[..n], foreign)
  {
    forall i | 0 <= i < n && log[i].file !in foreign
      ensures log[..n][i].before == Latest(base, log[..n][..i], log[..n][i].file)
    {
      assert log[..n][..i] == log[..i];
    }
  }

  lemma {:induction false} TextsGrow(base: Files, log: seq<Entry>, n: nat, f: Path)
    requires n <= |log|
    ensures Texts(base, log[..n], f) <= Texts(base, log, f)
    decreases |log| - n
  {
    if n < |log| {
      TextsGrow(base, log, n + 1, f);
      assert log[..n + 1][..n] == log[..n];
    } else {
      assert log[..n] == log;
    }
  }

  lemma WithinPrefix(base: Files, files: Files, log: seq<Entry>, foreign: set<Path>, n: nat)
    requires n <= |log| && Within(base, files, log[..n], foreign)
    ensures Within(base, files, log, foreign)
  {
    forall f | f !in foreign ensures Get(files, f) in Texts(base, log, f) {
      TextsGrow(base, log, n, f);
    }
  }

  /** Undoing the newest entry leaves every file at one of its earlier texts. */
  lemma UndoOneStepsBack(base: Files, files: Files, log: seq<Entry>, foreign: set<Path>)
    requires log != [] && Chained(base, log, foreign) && Within(base, files, log, foreign)
    ensures Within(base, UndoOne(files, log[|log| - 1]), log[..|log| - 1], foreign)
  {
    var n := |log| - 1;
    var last := log[n];
    var undone := UndoOne(files, last);
    forall f | f !in foreign ensures Get(undone, f) in Texts(base, log[..n], f) {
      if f == last.file {
        LatestIsOneOfTheTexts(base, log[..n], f);
      } else {
        assert Get(undone, f) == Get(files, f);
      }
    }
  }

  lemma {:induction false} UndoStaysWithin(
      base: Files, files: Files, log: seq<Entry>, foreign: set<Path>, steps: nat)
    requires Chained(base, log, foreign) && Within(base, files, log, foreign)
    ensures Within(base, Undo(files, log, steps), log, foreign)
    ensures steps >= |log| ==> SameFiles(Undo(files, log, steps), base, foreign)
  {
    if steps != 0 && log != [] {
      var n := |log| - 1;
      UndoOneStepsBack(base, files, log, foreign);
      ChainedPrefix(base, log, foreign, n);
      var undone := UndoOne(files, log[n]);
      UndoStaysWithin(base, undone, log[..n], foreign, steps - 1);
      WithinPrefix(base, Undo(files, log, steps), log, foreign, n);
    }
  }

  /**
   Crash atomicity of the files: whatever prefix of the log was applied, and however many
   recoveries were cut short before, a recovery that runs to its end restores the files exactly.
   */
  lemma {:induction false} RecoveryRestoresFiles(
      base: Files, files: Files, log: seq<Entry>, foreign: set<Path>, stops: seq<nat>)
    requires Chained(base, log, foreign) && Within(base, files, log, foreign)
    ensures SameFiles(Undo(UndoAgain(files, log, stops), log, |log|), base, foreign)
    decreases |stops|
  {
    if stops == [] {
      UndoStaysWithin(base, files, log, foreign, |log|);
    } else {
      UndoStaysWithin(base, files, log, foreign, stops[0]);
      RecoveryRestoresFiles(base, Undo(files, log, stops[0]), log, foreign, stops[1..]);
    }
  }

  ghost predicate Recorded(log: seq<Entry>, f: Path, text: Option<Text>) {
    exists i :: 0 <= i < |log| && log[i].file == f && text == Some(log[i].afterHash.of)
  }

  /** A text the log did not record is never touched, by any number of recoveries. */
  lemma {:induction false} UnrecordedTextStays(files: Files, log: seq<Entry>, steps: nat, f: Path)
    requires !Recorded(log, f, Get(files, f))
    ensures Get(Undo(files, log, steps), f) == Get(files, f)
  {
    if steps != 0 && log != [] {
      var n := |log| - 1;
      var undone := UndoOne(files, log[n]);
      assert Get(undone, f) == Get(files, f);
      assert forall i :: 0 <= i < n ==> log[..n][i] == log[i];
      UnrecordedTextStays(undone, log[..n], steps - 1, f);
    }
  }

  lemma {:induction false} UnrecordedTextAlwaysStays(
      files: Files, log: seq<Entry>, stops: seq<nat>, f: Path)
    requires !Recorded(log, f, Get(files, f))
    ensures Get(UndoAgain(files, log, stops), f) == Get(files, f)
    decreases |stops|
  {
    if stops != [] {
      UnrecordedTextStays(files, log, stops[0], f);
      UnrecordedTextAlwaysStays(Undo(files, log, stops[0]), log, stops[1..], f);
    }
  }

  /** Applying one more write keeps the log and the files in step. */
  lemma WriteExtendsLog(base: Files, files: Files, log: seq<Entry>, foreign: set<Path>, e: Entry)
    requires Chained(base, log, foreign) && Exact(base, files, log, foreign)
    requires e.file !in foreign ==> e.before == Get(files, e.file)
    ensures Chained(base, log + [e], foreign)
    ensures Within(base, files, log + [e], foreign)
    ensures Exact(base, Put(files, e.file, Some(e.afterHash.of)), log + [e], foreign)
  {
    var more := log + [e];
    assert more[..|log|] == log;
    forall i | 0 <= i < |more| && more[i].file !in foreign
      ensures more[i].before == Latest(base, more[..i], more[i].file)
    {
      if i < |log| {
        assert more[..i] == log[..i];
      }
    }
    ExactIsWithin(base, files, log, foreign);
    WithinPrefix(base, files, more, foreign, |log|);
  }

  /** Credential ids the manifest file names. */
  function Ids(rows: seq<Registration>): set<Id> {
    set r | r in rows :: r.credential
  }

  function Named(files: Files, manifestPath: Path): set<Id> {
    match Get(files, manifestPath)
    case Some(ManifestText(m)) => Ids(m.rows)
    case _ => {}
  }

  ghost predicate Distinct(rows: seq<Registration>) {
    forall i, j :: 0 <= i < j < |rows| ==>
      && rows[i].key != rows[j].key && rows[i].credential != rows[j].credential
      && rows[i].file != rows[j].file
  }

  /** The credential files of registrations. */
  function FilesOf(rows: seq<Registration>): set<Path> {
    set r | r in rows :: r.file
  }

  function Find(rows: seq<Registration>, key: string): Option<Registration> {
    if rows == [] then None
    else if rows[0].key == key then Some(rows[0]) else Find(rows[1..], key)
  }

  function Without(rows: seq<Registration>, key: string): seq<Registration> {
    if rows == [] then []
    else (if rows[0].key == key then [] else [rows[0]]) + Without(rows[1..], key)
  }

  lemma {:induction false} WithoutKeepsTheRest(rows: seq<Registration>, key: string)
    ensures forall r :: r in Without(rows, key) <==> r in rows && r.key != key
    ensures forall k :: k != key ==> Find(Without(rows, key), k) == Find(rows, k)
    ensures Find(Without(rows, key), key) == None
  {
    if rows != [] {
      var rest := rows[1..];
      WithoutKeepsTheRest(rest, key);
      assert rows == [rows[0]] + rest;
      if rows[0].key != key {
        assert Without(rows, key)[1..] == Without(rest, key);
      } else {
        assert Without(rows, key) == Without(rest, key);
      }
    }
  }

  lemma {:induction false} WithoutStaysDistinct(rows: seq<Registration>, key: string)
    requires Distinct(rows)
    ensures Distinct(Without(rows, key))
  {
    if rows != [] {
      var rest := rows[1..];
      WithoutStaysDistinct(rest, key);
      WithoutKeepsTheRest(rest, key);
      assert forall r :: r in rest ==> exists i :: 1 <= i < |rows| && rows[i] == r;
      if rows[0].key != key {
        assert Without(rows, key) == [rows[0]] + Without(rest, key);
      } else {
        assert Without(rows, key) == Without(rest, key);
      }
    }
  }

  lemma {:induction false} FindFinds(rows: seq<Registration>, key: string)
    ensures Find(rows, key).Some? ==> Find(rows, key).value in rows && Find(rows, key).value.key == key
    ensures Find(rows, key).None? ==> forall r :: r in rows ==> r.key != key
  {
    if rows != [] {
      FindFinds(rows[1..], key);
      assert rows == [rows[0]] + rows[1..];
    }
  }

  lemma {:induction false} FindAppend(rows: seq<Registration>, row: Registration, key: string)
    requires row.key != key
    ensures Find(rows + [row], key) == Find(rows, key)
  {
    if rows != [] {
      assert (rows + [row])[1..] == rows[1..] + [row];
      FindAppend(rows[1..], row, key);
    }
  }

  lemma {:induction false} FindAppended(rows: seq<Registration>, row: Registration)
    requires Find(rows, row.key) == None
    ensures Find(rows + [row], row.key) == Some(row)
  {
    if rows != [] {
      assert (rows + [row])[1..] == rows[1..] + [row];
      FindAppended(rows[1..], row);
    }
  }

  /** Dropping a registration takes exactly its own credential out of the manifest. */
  lemma WithoutDropsOneId(rows: seq<Registration>, key: string)
    requires Distinct(rows)
    ensures Find(rows, key).None? ==> Ids(Without(rows, key)) == Ids(rows)
    ensures Find(rows, key).Some? ==>
      Find(rows, key).value.credential in Ids(rows) &&
      Ids(Without(rows, key)) == Ids(rows) - {Find(rows, key).value.credential}
    ensures Find(rows, key).Some? ==> Find(rows, key).value.file !in FilesOf(Without(rows, key))
  {
    WithoutKeepsTheRest(rows, key);
    FindFinds(rows, key);
    if Find(rows, key).Some? {
      var found := Find(rows, key).value;
      forall r | r in rows
        ensures r.key != key <==> r.credential != found.credential
        ensures r.key != key ==> r.file != found.file
      {
        if r != found {
          var i :| 0 <= i < |rows| && rows[i] == r;
          var j :| 0 <= j < |rows| && rows[j] == found;
          assert i < j || j < i;
        }
      }
    }
  }
}
