/**
 The purge of a state folder: everything the product created goes, what predates its marker and
 what the caller wants kept stays. Paths are relative to the state folder and contain no links.
 */
module Purge {

  type Path = seq<string>

  const MARKER := ".aevra-state-owner.json"

  predicate AtOrAbove(a: Path, b: Path) {
    a <= b
  }

  predicate Above(a: Path, b: Path) {
    a < b
  }

  /** The folder exists, and so does every folder above an existing path. */
  ghost predicate IsTree(nodes: set<Path>, folders: set<Path>) {
    && [] in nodes && [] in folders
    && (forall p, q :: q in nodes && Above(p, q) ==> p in nodes && p in folders)
  }

  datatype Keep = Keep(paths: seq<Path>, preexisting: set<string>) {

    /** The marker and what predates it. */
    predicate Spares(p: Path) {
      p != [] && (p[0] in preexisting || p == [MARKER])
    }

    predicate KeptAtOrAbove(p: Path) {
      exists k :: k in paths && k != [] && AtOrAbove(k, p)
    }

    predicate KeptBelow(p: Path) {
      exists k :: k in paths && Above(p, k)
    }

    /** Some kept path below exists. */
    predicate LeadsToKept(nodes: set<Path>, p: Path) {
      exists k :: k in paths && Above(p, k) && k in nodes
    }

    /** What a purge leaves of the tree: the marker itself goes last. */
    predicate Stays(nodes: set<Path>, p: Path) {
      Spares(p) || KeptAtOrAbove(p) || LeadsToKept(nodes, p)
    }

    /** What the sweep reports as kept: predating entries and topmost kept paths. */
    predicate Retains(p: Path) {
      && p != [] && p != [MARKER]
      && ((|p| == 1 && p[0] in preexisting)
          || (p in paths && !Spares(p) && forall k :: k in paths && k != [] && AtOrAbove(k, p) ==> k == p))
    }

    /** A plain file the sweep would have to enter. */
    predicate Blocks(folders: set<Path>, p: Path) {
      p !in folders && !Spares(p) && !KeptAtOrAbove(p) && KeptBelow(p)
    }
  }

  /** The sweep has dealt with `name` in `folder`: what is left below it is what stays. */
  ghost predicate Swept(before: set<Path>, after: set<Path>, keep: Keep, folder: Path, names: set<string>) {
    forall p :: p in after <==>
      p in before && (Above(folder, p) && p[|folder|] in names ==> keep.Stays(before, p))
  }

  /** The folder is reached by the sweep. */
  ghost predicate Reached(keep: Keep, folder: Path) {
    folder == [] || (!keep.Spares(folder) && !keep.KeptAtOrAbove(folder))
  }

  function Names(nodes: set<Path>, folder: Path): set<string> {
    set p | p in nodes && Above(folder, p) && |p| == |folder| + 1 :: p[|folder|]
  }

  lemma ChildOnTheWay(nodes: set<Path>, folders: set<Path>, folder: Path, p: Path)
    requires IsTree(nodes, folders) && p in nodes && Above(folder, p)
    ensures folder + [p[|folder|]] in nodes && p[|folder|] in Names(nodes, folder)
    ensures AtOrAbove(folder + [p[|folder|]], p)
  {
    var child := folder + [p[|folder|]];
    assert child == p[..|folder| + 1];
    if child != p {
      assert Above(child, p);
    }
    assert Above(folder, child);
  }

  /** A swept folder is empty exactly when nothing below it was to stay. */
  lemma EmptyOrLeading(before: set<Path>, after: set<Path>, folders: set<Path>, keep: Keep, folder: Path)
    requires IsTree(before, folders) && folder != [] && Reached(keep, folder) && folder in before
    requires Swept(before, after, keep, folder, Names(before, folder))
    ensures Names(after, folder) == {} <==> !keep.LeadsToKept(before, folder)
  {
    if keep.LeadsToKept(before, folder) {
      var k :| k in keep.paths && Above(folder, k) && k in before;
      ChildOnTheWay(before, folders, folder, k);
      var child := folder + [k[|folder|]];
      StaysOnTheWay(before, keep, child, k);
      assert child in after && Above(folder, child) && child[|folder|] in Names(after, folder);
    } else if Names(after, folder) != {} {
      var name :| name in Names(after, folder);
      var p :| p in after && Above(folder, p) && |p| == |folder| + 1 && p[|folder|] == name;
      assert p in before && p[|folder|] in Names(before, folder);
      SpareIsFirst(keep, folder, p);
      NothingKeptHere(before, keep, folder, p);
    }
  }

  lemma StaysOnTheWay(nodes: set<Path>, keep: Keep, p: Path, k: Path)
    requires k in keep.paths && k in nodes && k != [] && AtOrAbove(p, k)
    ensures keep.Stays(nodes, p)
  {
    if p == k {
      assert AtOrAbove(k, p);
    } else {
      assert Above(p, k);
    }
  }

  lemma SpareIsFirst(keep: Keep, folder: Path, p: Path)
    requires folder != [] && Above(folder, p) && !keep.Spares(folder)
    ensures !keep.Spares(p)
  {
    assert p[0] == folder[0];
  }

  lemma PrefixOfChild(k: Path, folder: Path, p: Path)
    requires AtOrAbove(k, p) && Above(folder, p) && |p| == |folder| + 1
    ensures k == p || AtOrAbove(k, folder)
  {
    if k != p {
      assert k == p[..|k|] == folder[..|k|];
    }
  }

  lemma NothingKeptHere(nodes: set<Path>, keep: Keep, folder: Path, p: Path)
    requires Above(folder, p) && |p| == |folder| + 1 && p in nodes
    requires !keep.KeptAtOrAbove(folder) && keep.Stays(nodes, p) && !keep.Spares(p)
    ensures keep.LeadsToKept(nodes, folder)
  {
    if keep.KeptAtOrAbove(p) {
      var k :| k in keep.paths && k != [] && AtOrAbove(k, p);
      PrefixOfChild(k, folder, p);
      assert Above(folder, k);
    } else {
      var k :| k in keep.paths && Above(p, k) && k in nodes;
      assert Above(folder, k);
    }
  }

  /** What stays does not lose a folder above it. */
  lemma StaysUp(nodes: set<Path>, folders: set<Path>, keep: Keep, a: Path, p: Path)
    requires IsTree(nodes, folders) && p in nodes && Above(a, p) && a != [] && keep.Stays(nodes, p)
    ensures keep.Stays(nodes, a)
  {
    if keep.Spares(p) {
      assert a[0] == p[0];
    } else if keep.KeptAtOrAbove(p) {
      var k :| k in keep.paths && k != [] && AtOrAbove(k, p);
      if |k| <= |a| {
        assert k == p[..|k|] == a[..|k|];
        assert AtOrAbove(k, a);
      } else {
        assert a == p[..|a|] == k[..|a|];
        assert Above(a, k) && (k == p || Above(k, p));
      }
    } else {
      var k :| k in keep.paths && Above(p, k) && k in nodes;
      assert Above(a, k);
    }
  }

  /** A half swept tree is a tree. */
  lemma SweptIsTree(
      before: set<Path>, after: set<Path>, folders: set<Path>, keep: Keep, folder: Path, names: set<string>)
    requires IsTree(before, folders) && Swept(before, after, keep, folder, names)
    ensures IsTree(after, folders)
  {
    forall p, q | q in after && Above(p, q) ensures p in after && p in folders {
      if Above(folder, p) && p[|folder|] in names {
        assert Above(folder, q) && q[|folder|] == p[|folder|];
        StaysUp(before, folders, keep, p, q);
      }
    }
  }

  /** Below an entry not yet swept nothing has changed. */
  lemma SameBelow(
      before: set<Path>, now: set<Path>, keep: Keep, folder: Path, names: set<string>, name: string, p: Path)
    requires Swept(before, now, keep, folder, names) && name !in names
    requires AtOrAbove(folder + [name], p)
    ensures p in now <==> p in before
    ensures keep.LeadsToKept(now, p) == keep.LeadsToKept(before, p)
    ensures keep.Stays(now, p) == keep.Stays(before, p)
  {
    EntryName(folder, name, p);
    forall k | Above(p, k) ensures k in now <==> k in before {
      EntryName(folder, name, k);
    }
  }

  lemma EntryName(folder: Path, name: string, p: Path)
    requires AtOrAbove(folder + [name], p)
    ensures Above(folder, p) && p[|folder|] == name
  {
    assert (folder + [name])[|folder|] == p[|folder|];
  }

  lemma NamedEntry(folder: Path, name: string, p: Path)
    requires Above(folder, p) && p[|folder|] == name
    ensures AtOrAbove(folder + [name], p)
  {
    assert folder + [name] == p[..|folder| + 1];
  }

  /** One more entry is dealt with once everything at or below it has been. */
  lemma OneMoreEntry(
      before: set<Path>, now: set<Path>, after: set<Path>, keep: Keep, folder: Path, names: set<string>, name: string)
    requires Swept(before, now, keep, folder, names) && name !in names
    requires forall p :: AtOrAbove(folder + [name], p) ==> (p in after <==> p in before && keep.Stays(before, p))
    requires forall p :: !AtOrAbove(folder + [name], p) ==> (p in after <==> p in now)
    ensures Swept(before, after, keep, folder, names + {name})
  {
    forall p ensures p in after <==>
      p in before && (Above(folder, p) && p[|folder|] in names + {name} ==> keep.Stays(before, p))
    {
      if AtOrAbove(folder + [name], p) {
        EntryName(folder, name, p);
      } else if Above(folder, p) && p[|folder|] == name {
        NamedEntry(folder, name, p);
      }
    }
  }

  function Longest(paths: seq<Path>): (n: nat)
    ensures forall k :: k in paths ==> |k| <= n
  {
    if paths == [] then 0
    else
      var rest := Longest(paths[1..]);
      if |paths[0]| > rest then |paths[0]| else rest
  }

  /** How far below the folder a kept path can still be. */
  function Depth(keep: Keep, folder: Path): nat {
    var longest := Longest(keep.paths);
    if longest > |folder| then longest - |folder| else 0
  }

  /** An entry the sweep enters lies one level deeper and is reached itself. */
  lemma EnteredIsReached(keep: Keep, folder: Path, name: string)
    requires Reached(keep, folder) && !(folder == [] && (name in keep.preexisting || name == MARKER))
    requires folder + [name] !in keep.paths
    ensures Reached(keep, folder + [name])
    ensures keep.KeptBelow(folder + [name]) ==> Depth(keep, folder + [name]) < Depth(keep, folder)
  {
    var file := folder + [name];
    if keep.KeptAtOrAbove(file) {
      var k :| k in keep.paths && k != [] && AtOrAbove(k, file);
      PrefixOfChild(k, folder, file);
    }
    EnteredIsSpared(keep, folder, name);
  }

  lemma EnteredIsSpared(keep: Keep, folder: Path, name: string)
    requires Reached(keep, folder) && !(folder == [] && (name in keep.preexisting || name == MARKER))
    ensures !keep.Spares(folder + [name])
  {
    assert (folder + [name])[0] == if folder == [] then name else folder[0];
  }

  /** An entry at the top that the purge does not touch. */
  lemma SparedEntry(before: set<Path>, folders: set<Path>, keep: Keep, name: string, p: Path)
    requires IsTree(before, folders) && [MARKER] !in folders && p in before && AtOrAbove([name], p)
    requires name == MARKER || name in keep.preexisting
    ensures keep.Stays(before, p) && !keep.Blocks(folders, p)
    ensures keep.Retains(p) <==> p == [name] && name != MARKER
  {
    assert p[0] == name;
    if p != [name] {
      assert Above([name], p);
    }
  }

  /** A kept path the sweep reaches. */
  lemma KeptEntry(before: set<Path>, folders: set<Path>, keep: Keep, file: Path, p: Path)
    requires file in keep.paths && file != [] && AtOrAbove(file, p) && !keep.Spares(file)
    requires forall k :: k in keep.paths && k != [] && AtOrAbove(k, file) ==> k == file
    ensures keep.Stays(before, p) && !keep.Blocks(folders, p)
    ensures keep.Retains(p) <==> p == file
  {
    assert p[0] == file[0];
  }

  lemma TopmostKept(keep: Keep, folder: Path, name: string)
    requires Reached(keep, folder)
    ensures forall k :: k in keep.paths && k != [] && AtOrAbove(k, folder + [name]) ==> k == folder + [name]
  {
    forall k | k in keep.paths && k != [] && AtOrAbove(k, folder + [name]) ensures k == folder + [name] {
      PrefixOfChild(k, folder, folder + [name]);
    }
  }

  /** An entry that nothing asks to keep. */
  lemma RemovedEntry(before: set<Path>, folders: set<Path>, keep: Keep, file: Path, p: Path)
    requires Reached(keep, file) && file != [] && !keep.KeptBelow(file) && AtOrAbove(file, p)
    ensures !keep.Stays(before, p) && !keep.Blocks(folders, p) && !keep.Retains(p)
  {
    assert p[0] == file[0];
    assert AtOrAbove(p, p);
  }

  /** Entering an entry and dropping it when it is empty leaves what stays at and below it. */
  lemma EnteredEntry(
      before: set<Path>, now: set<Path>, swept: set<Path>, after: set<Path>, folders: set<Path>, keep: Keep,
      folder: Path, done: set<string>, name: string, p: Path)
    requires IsTree(before, folders) && IsTree(now, folders) && Swept(before, now, keep, folder, done)
    requires name !in done && folder + [name] in now && Reached(keep, folder + [name])
    requires Swept(now, swept, keep, folder + [name], Names(now, folder + [name]))
    requires after == if Names(swept, folder + [name]) == {} then swept - {folder + [name]} else swept
    requires AtOrAbove(folder + [name], p)
    ensures p in after <==> p in before && keep.Stays(before, p)
  {
    var file := folder + [name];
    SameBelow(before, now, keep, folder, done, name, p);
    if p == file {
      EmptyOrLeading(now, swept, folders, keep, file);
      assert p in swept;
    } else {
      assert Above(file, p);
      if p in now {
        ChildOnTheWay(now, folders, file, p);
      }
    }
  }

  datatype Result = Purged(removed: bool, retained: seq<Path>) | Failed

  class StateFolder {
    var nodes: set<Path>
    const folders: set<Path>

    ghost predicate Valid()
      reads this
    {
      IsTree(nodes, folders) && [MARKER] !in folders
    }

    constructor (nodes: set<Path>, folders: set<Path>)
      requires IsTree(nodes, folders) && [MARKER] !in folders
      ensures Valid() && this.nodes == nodes && this.folders == folders
    {
      this.nodes, this.folders := nodes, folders;
    }

    /** Removes a file, or a folder with everything in it. */
    method Remove(file: Path)
      modifies this`nodes
      ensures nodes == set p | p in old(nodes) && !AtOrAbove(file, p)
    {
      nodes := set p | p in nodes && !AtOrAbove(file, p);
    }

    /** One entry of a folder: spared, kept, entered, or removed. */
    method SweepEntry(keep: Keep, folder: Path, name: string, ghost before: set<Path>, ghost done: set<string>)
      returns (ok: bool, retained: seq<Path>)
      requires IsTree(before, folders) && [MARKER] !in folders && Reached(keep, folder)
      requires Swept(before, nodes, keep, folder, done) && name !in done && folder + [name] in before
      modifies this`nodes
      ensures ok ==> Swept(before, nodes, keep, folder, done + {name})
      ensures ok <==> forall p :: p in before && AtOrAbove(folder + [name], p) ==> !keep.Blocks(folders, p)
      ensures ok ==> forall p :: p in retained <==>
        p in before && AtOrAbove(folder + [name], p) && keep.Retains(p)
      ensures forall p :: !AtOrAbove(folder + [name], p) ==> (p in nodes <==> p in old(nodes))
      decreases Depth(keep, folder), 1
    {
      ghost var now := nodes;
      var file := folder + [name];
      ok, retained := true, [];
      SweptIsTree(before, now, folders, keep, folder, done);
      TopmostKept(keep, folder, name);
      forall p | AtOrAbove(file, p) ensures p in now <==> p in before {
        SameBelow(before, now, keep, folder, done, name, p);
      }
      if folder == [] && (name == MARKER || name in keep.preexisting) {
        forall p | p in before && AtOrAbove(file, p)
          ensures keep.Stays(before, p) && !keep.Blocks(folders, p)
          ensures keep.Retains(p) <==> p == file && name != MARKER
        {
          assert file == [name];
          SparedEntry(before, folders, keep, name, p);
        }
        if name != MARKER {
          retained := [file];
        }
        OneMoreEntry(before, now, nodes, keep, folder, done, name);
      } else if file in keep.paths {
        EnteredIsSpared(keep, folder, name);
        forall p | p in before && AtOrAbove(file, p)
          ensures keep.Stays(before, p) && !keep.Blocks(folders, p)
          ensures keep.Retains(p) <==> p == file
        {
          KeptEntry(before, folders, keep, file, p);
        }
        retained := [file];
        OneMoreEntry(before, now, nodes, keep, folder, done, name);
      } else if exists k :: k in keep.paths && Above(file, k) {
        ok, retained := EnterEntry(keep, folder, name, before, done);
      } else {
        EnteredIsReached(keep, folder, name);
        forall p | AtOrAbove(file, p) ensures !keep.Stays(before, p) && !keep.Blocks(folders, p) && !keep.Retains(p) {
          RemovedEntry(before, folders, keep, file, p);
        }
        Remove(file);
        OneMoreEntry(before, now, nodes, keep, folder, done, name);
      }
    }

    /** An entry with a kept path below it: swept, and dropped when nothing is left in it. */
    method EnterEntry(keep: Keep, folder: Path, name: string, ghost before: set<Path>, ghost done: set<string>)
      returns (ok: bool, retained: seq<Path>)
      requires IsTree(before, folders) && [MARKER] !in folders && Reached(keep, folder)
      requires Swept(before, nodes, keep, folder, done) && name !in done && folder + [name] in before
      requires !(folder == [] && (name == MARKER || name in keep.preexisting))
      requires folder + [name] !in keep.paths && keep.KeptBelow(folder + [name])
      modifies this`nodes
      ensures ok ==> Swept(before, nodes, keep, folder, done + {name})
      ensures ok <==> forall p :: p in before && AtOrAbove(folder + [name], p) ==> !keep.Blocks(folders, p)
      ensures ok ==> forall p :: p in retained <==>
        p in before && AtOrAbove(folder + [name], p) && keep.Retains(p)
      ensures forall p :: !AtOrAbove(folder + [name], p) ==> (p in nodes <==> p in old(nodes))
      decreases Depth(keep, folder), 0
    {
      ghost var now := nodes;
      var file := folder + [name];
      SweptIsTree(before, now, folders, keep, folder, done);
      EnteredIsReached(keep, folder, name);
      forall p | AtOrAbove(file, p) ensures p in now <==> p in before {
        SameBelow(before, now, keep, folder, done, name, p);
      }
      ok, retained := Sweep(keep, file);
      ghost var swept := nodes;
      if ok && Names(nodes, file) == {} {
        nodes := nodes - {file};
      }
      forall p ensures AtOrAbove(file, p) <==> p == file || Above(file, p) {
      }
      assert !keep.Retains(file) && (keep.Blocks(folders, file) <==> file !in folders);
      if ok {
        forall p | AtOrAbove(file, p) ensures p in nodes <==> p in before && keep.Stays(before, p) {
          EnteredEntry(before, now, swept, nodes, folders, keep, folder, done, name, p);
        }
        OneMoreEntry(before, now, nodes, keep, folder, done, name);
      }
    }

    /** Deals with every entry of a folder. */
    method Sweep(keep: Keep, folder: Path) returns (ok: bool, retained: seq<Path>)
      requires Valid() && Reached(keep, folder) && folder in nodes
      modifies this`nodes
      ensures ok ==> Swept(old(nodes), nodes, keep, folder, Names(old(nodes), folder))
      ensures ok <==>
        (folder in folders && forall p :: p in old(nodes) && Above(folder, p) ==> !keep.Blocks(folders, p))
      ensures ok ==> forall p :: p in retained <==> p in old(nodes) && Above(folder, p) && keep.Retains(p)
      ensures forall p :: !Above(folder, p) ==> (p in nodes <==> p in old(nodes))
      decreases Depth(keep, folder), 2
    {
      ok, retained := folder in folders, [];
      if !ok {
        return;
      }
      ghost var before, done: set<string> := nodes, {};
      var left := Names(nodes, folder);
      while left != {}
        invariant ok && done + left == Names(before, folder) && done !! left
        invariant Swept(before, nodes, keep, folder, done)
        invariant forall p :: p in before && Above(folder, p) && p[|folder|] in done ==> !keep.Blocks(folders, p)
        invariant forall p :: p in retained <==>
          p in before && Above(folder, p) && p[|folder|] in done && keep.Retains(p)
        invariant forall p :: !Above(folder, p) ==> (p in nodes <==> p in before)
        decreases left
      {
        var name :| name in left;
        NamedChild(before, folder, name);
        AtEntry(folder, name);
        var more: seq<Path>;
        ok, more := SweepEntry(keep, folder, name, before, done);
        if !ok {
          return;
        }
        retained := retained + more;
        done, left := done + {name}, left - {name};
      }
      forall p | p in before && Above(folder, p) ensures p[|folder|] in done {
        ChildOnTheWay(before, folders, folder, p);
      }
    }

    method SweepRoot(keep: Keep) returns (ok: bool, retained: seq<Path>)
      requires Valid()
      modifies this`nodes
      ensures ok <==> forall p :: p in old(nodes) ==> !keep.Blocks(folders, p)
      ensures ok ==> Valid() && forall p :: p != [] ==> (p in nodes <==> p in old(nodes) && keep.Stays(old(nodes), p))
      ensures ok ==> forall p :: p in retained <==> p in old(nodes) && keep.Retains(p)
    {
      ghost var before := nodes;
      ok, retained := Sweep(keep, []);
      AboveRoot();
      if ok {
        WholeTreeSwept(before, nodes, folders, keep);
      }
    }

    /**
     The purge. It leaves exactly the predating entries, the kept subtrees and the folders that
     lead to a kept path that exists; `removed` says that nothing at all is left.
     */
    method Run(keep: Keep) returns (r: Result)
      requires Valid()
      modifies this`nodes
      ensures r.Failed? <==> ([MARKER] !in old(nodes) || exists p :: p in old(nodes) && keep.Blocks(folders, p))
      ensures r.Purged? ==> forall p :: p != [] ==>
        (p in nodes <==> p in old(nodes) && p != [MARKER] && keep.Stays(old(nodes), p))
      ensures r.Purged? ==> (r.removed <==> nodes == {}) && (!r.removed ==> [] in nodes)
      ensures r.Purged? ==> forall p :: p in r.retained <==> p in old(nodes) && keep.Retains(p)
    {
      var ok, retained := SweepRoot(keep);
      if !ok || [MARKER] !in nodes {
        return Failed;
      }
      EmptyRoot(nodes, folders);
      nodes := nodes - {[MARKER]};
      var empty := Names(nodes, []) == {};
      if empty {
        nodes := nodes - {[]};
      }
      r := Purged(empty, retained);
    }
  }

  lemma WholeTreeSwept(before: set<Path>, after: set<Path>, folders: set<Path>, keep: Keep)
    requires IsTree(before, folders) && Swept(before, after, keep, [], Names(before, []))
    ensures IsTree(after, folders)
    ensures forall p :: p != [] ==> (p in after <==> p in before && keep.Stays(before, p))
  {
    SweptIsTree(before, after, folders, keep, [], Names(before, []));
    forall p | p in before && p != [] ensures Above([], p) && p[0] in Names(before, []) {
      AboveRoot();
      ChildOnTheWay(before, folders, [], p);
    }
  }

  lemma EmptyRoot(nodes: set<Path>, folders: set<Path>)
    requires IsTree(nodes, folders) && [MARKER] !in folders
    ensures Names(nodes - {[MARKER]}, []) == {} <==> nodes - {[MARKER]} - {[]} == {}
  {
    forall p | p in nodes && p != [] && p != [MARKER] ensures p[0] in Names(nodes - {[MARKER]}, []) {
      AboveRoot();
      MarkerHidesNothing(nodes, folders, p);
    }
    AboveRoot();
  }

  lemma AboveRoot()
    ensures forall p: Path :: Above([], p) <==> p != []
  {
  }

  /** The first entry on the way to anything but the marker is not the marker. */
  lemma MarkerHidesNothing(nodes: set<Path>, folders: set<Path>, p: Path)
    requires IsTree(nodes, folders) && [MARKER] !in folders && p in nodes && p != [] && p != [MARKER]
    ensures p[0] in Names(nodes - {[MARKER]}, [])
  {
    ChildOnTheWay(nodes, folders, [], p);
    var top := [p[0]];
    assert top == [] + [p[0]] && top in nodes;
    if top == [MARKER] {
      assert Above(top, p);
    }
    assert Above([], top);
  }

  lemma NamedChild(nodes: set<Path>, folder: Path, name: string)
    requires name in Names(nodes, folder)
    ensures folder + [name] in nodes
  {
    var p :| p in nodes && Above(folder, p) && |p| == |folder| + 1 && p[|folder|] == name;
    assert p == folder + [name];
  }

  lemma AtEntry(folder: Path, name: string)
    ensures forall p :: AtOrAbove(folder + [name], p) <==> Above(folder, p) && p[|folder|] == name
  {
    forall p ensures AtOrAbove(folder + [name], p) <==> Above(folder, p) && p[|folder|] == name {
      if AtOrAbove(folder + [name], p) {
        EntryName(folder, name, p);
      } else if Above(folder, p) && p[|folder|] == name {
        NamedEntry(folder, name, p);
      }
    }
  }
}
