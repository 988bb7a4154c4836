/**
 How many entries a directory may have to be removed.
 */
module FsEntries {
  import opened Machine
  import opened HeapModel
  import opened HeapRuns
  import opened FsTree
  import opened FsModel
  import opened PathModel
  import opened SkullFs
  import opened PathWalk
  import opened FsCommands
  import opened FsRuns
  import opened FsPaths

  /** The directory `d` at the path `a` lists just `names`, on a heap in use up to its last block. */
  predicate Lists(s: Snapshot, a: string, d: Path, names: seq<string>, room: int) {
    && Resolved(s.v.tree, a) == Some(d) && d in s.v.tree && s.v.tree[d] == Dir(names)
    && 400 < room && Bumped(s.blocks, room)
  }

  lemma MkdirLists(s: Snapshot, root: nat, a: string, o: Outcome, after: Snapshot, room: nat)
    requires Sound(s, root) && IsPath(a, "", a) && Resolved(s.v.tree, a) == None && Effect(s, MakeDir(a), o, after)
    requires Bumped(s.blocks, room) && room > 800
    ensures o.ok && Lists(after, a, In(Root, a), [], room - 380)
  {
    hide Resolved, Tiled, Inv, Bumped, DirGrants, FileName, Target, Creatable;
    NoPathIsRoot(s.v.tree);
    TreeOfSound(s, root);
    BumpedDir(s.blocks, room);
    MkdirMakes(s, root, a, "", a, o.ok, after);
  }

  lemma TouchLists(s: Snapshot, root: nat, a: string, d: Path, names: seq<string>, x: string,
                   o: Outcome, after: Snapshot, room: nat)
    requires Sound(s, root) && IsPath(a + "/" + x, a, x) && x != "." && x != ".." && x !in names
    requires Lists(s, a, d, names, room) && room > 800 && Effect(s, MakeFile(a + "/" + x), o, after)
    ensures o.ok && Lists(after, a, d, [x] + names, room - 352)
  {
    hide Resolved, Tiled, Inv, Bumped, FileGrants, FileName, Target, Creatable;
    var path := a + "/" + x;
    TreeOfSound(s, root);
    PathStep(s.v.tree, path, a, x);
    BumpedFile(s.blocks, room);
    TouchMakes(s, root, path, a, x, o.ok, after);
    assert Within(s.v.tree, after.v.tree);
    ResolvedInLarger(s.v.tree, after.v.tree, a);
  }

  /** A directory, files in it, and the directory removed. */
  function Entries(a: string, names: seq<string>): seq<Command> {
    [MakeDir(a)] + seq(|names|, i requires 0 <= i < |names| => MakeFile(a + "/" + names[i])) + [Remove(a)]
  }

  function Newest(names: seq<string>): (r: seq<string>)
    ensures |r| == |names| && forall x :: x in r <==> x in names
  {
    if names == [] then [] else [names[|names| - 1]] + Newest(names[..|names| - 1])
  }

  predicate IsName(x: string) {
    x != "" && x != "." && x != ".." && '/' !in x && '\0' !in x && |x| <= 127
  }

  /** Names for files in the directory `a` of the root. */
  ghost predicate AreNames(a: string, names: seq<string>) {
    IsName(a) && Distinct(names) && forall x :: x in names ==> IsName(x)
  }

  lemma PathOfName(a: string, x: string)
    requires IsName(a) && IsName(x)
    ensures IsPath(a, "", a) && IsPath(a + "/" + x, a, x)
  {
  }

  lemma {:induction false} EntriesAreListed(states: seq<Snapshot>, outcomes: seq<Outcome>, root: nat,
                                            a: string, names: seq<string>, room: nat, n: nat)
    requires Trace(states, Entries(a, names), outcomes) && (forall s :: s in states ==> Sound(s, root))
    requires AreNames(a, names) && Resolved(states[0].v.tree, a) == None
    requires Bumped(states[0].blocks, room) && room > 1200 + 352 * |names| && n <= |names|
    ensures Lists(states[n + 1], a, In(Root, a), Newest(names[..n]), room - 380 - 352 * n)
    ensures forall i :: 0 <= i <= n ==> outcomes[i].ok
  {
    hide Resolved, Sound, Effect, Lists, IsPath, Bumped;
    var commands := Entries(a, names);
    if n == 0 {
      assert commands[0] == MakeDir(a);
      PathOfName(a, a);
      MkdirLists(states[0], root, a, outcomes[0], states[1], room);
      assert names[..0] == [];
    } else {
      var x := names[n - 1];
      EntriesAreListed(states, outcomes, root, a, names, room, n - 1);
      assert commands[n] == MakeFile(a + "/" + x) && x in names;
      assert x !in names[..n - 1];
      PathOfName(a, x);
      TouchLists(states[n], root, a, In(Root, a), Newest(names[..n - 1]), x, outcomes[n], states[n + 1],
                 room - 380 - 352 * (n - 1));
      assert names[..n][..n - 1] == names[..n - 1];
    }
  }

  /** A directory is made in the root, any number of files in it, and it is removed: all succeeds if there were at most
      two files, and with more than two the removal is refused. */
  lemma RemovedUpToTwo(states: seq<Snapshot>, outcomes: seq<Outcome>, root: nat, a: string, names: seq<string>,
                       room: nat)
    requires Trace(states, Entries(a, names), outcomes) && (forall s :: s in states ==> Sound(s, root))
    requires AreNames(a, names) && Resolved(states[0].v.tree, a) == None
    requires Bumped(states[0].blocks, room) && room > 1200 + 352 * |names|
    ensures forall i :: 0 <= i <= |names| ==> outcomes[i].ok
    ensures outcomes[|names| + 1].ok <==> |names| <= 2
    ensures Resolved(states[|names| + 2].v.tree, a) == if |names| <= 2 then None else Some(In(Root, a))
  {
    hide Resolved, Sound, Effect, Bumped;
    var n := |names|;
    EntriesAreListed(states, outcomes, root, a, names, room, n);
    assert names[..n] == names && Entries(a, names)[n + 1] == Remove(a);
    assert Effect(states[n + 1], Remove(a), outcomes[n + 1], states[n + 2]);
    PathOfName(a, a);
    EffectIsRemoval(states[n + 1], a, outcomes[n + 1], states[n + 2]);
    RmRemoves(states[n + 1], root, a, "", a, outcomes[n + 1].ok, states[n + 2]);
  }

  lemma EffectIsRemoval(s: Snapshot, path: string, o: Outcome, after: Snapshot)
    requires Effect(s, Remove(path), o, after)
    ensures Removes(s, path, o.ok, after)
  {
  }

  lemma NameIsFreeAtBoot(t: Tree, a: string)
    requires t == Directories(["tmp", "proc", "dev"]) && IsName(a) && a !in {"tmp", "proc", "dev"}
    ensures Resolved(t, a) == None
  {
    NoPathIsRoot(t);
    PathStep(t, a, "", a);
  }

  lemma ForNames(a: string, x: string)
    requires IsName(a) && IsName(x)
    ensures Wellformed(MakeDir(a)) && NoSelf(MakeDir(a)) && Wellformed(Remove(a)) && NoSelf(Remove(a))
    ensures Wellformed(MakeFile(a + "/" + x)) && NoSelf(MakeFile(a + "/" + x))
  {
    hide FileName;
    PathOfName(a, a);
    PathParts(a, "", a);
    PathOfName(a, x);
    PathParts(a + "/" + x, a, x);
  }

  lemma EntriesWellformed(a: string, names: seq<string>)
    requires AreNames(a, names)
    ensures forall c :: c in Entries(a, names) ==> Wellformed(c) && NoSelf(c)
  {
    hide Wellformed, NoSelf, IsName;
    ForNames(a, a);
    forall i | 0 <= i < |names| ensures Wellformed(MakeFile(a + "/" + names[i]))
        && NoSelf(MakeFile(a + "/" + names[i])) {
      assert names[i] in names;
      ForNames(a, names[i]);
    }
  }

  /** So it is from `memory_init` and the mount on. */
  method EntriesFromBoot(fs: FileSystem, a: string, names: seq<string>) returns (outcomes: seq<Outcome>)
    requires fs.heap.Valid() && fs.heap.blocks == INITIAL && fs.objs == map[]
    requires AreNames(a, names) && a !in {"tmp", "proc", "dev"} && |names| <= 100
    modifies fs, fs.heap, fs.heap.mem
    ensures fs.Valid() && |outcomes| == |names| + 2
    ensures forall i :: 0 <= i <= |names| ==> outcomes[i].ok
    ensures outcomes[|names| + 1].ok <==> |names| <= 2
  {
    hide Inv, Bumped, Mounting, Effect, Sound, Resolved;
    ghost var mounting, states;
    EntriesWellformed(a, names);
    outcomes, mounting, states := SessionFromBoot(fs, Entries(a, names));
    NameIsFreeAtBoot(states[0].v.tree, a);
    RemovedUpToTwo(states, outcomes, fs.root, a, names, 64152);
  }
}
