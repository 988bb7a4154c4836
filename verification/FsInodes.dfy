/**
 Inode numbers: while the counter has not gone round, no two nodes of the tree
 share one.
 */
module FsInodes {
  import opened Machine
  import opened HeapModel
  import opened FsTree
  import opened FsModel
  import opened PathModel
  import opened SkullFs
  import opened Words
  import opened PathWalk
  import opened FsCommands
  import opened FsRuns
  import opened FsLeaks

  // ---- Numbers of nodes -----------------------------------------------------

  ghost predicate HasNode(s: Snapshot, p: Path) {
    p in s.v.tree && p in s.v.at && s.v.at[p] in s.objs && s.objs[s.v.at[p]].Node?
  }

  ghost function Ino(s: Snapshot, p: Path): u32
    requires HasNode(s, p)
  {
    s.objs[s.v.at[p]].inode
  }

  /** Every node has a number below the counter, and no two the same. */
  ghost predicate Numbered(s: Snapshot) {
    && (forall p :: p in s.v.tree ==> HasNode(s, p) && Ino(s, p) < s.inode)
    && (forall p, q :: HasNode(s, p) && HasNode(s, q) && Ino(s, p) == Ino(s, q) ==> p == q)
  }

  /** The node at `q` was there before, with the same number. */
  ghost predicate SameNumber(s: Snapshot, after: Snapshot, q: Path) {
    HasNode(s, q) && HasNode(after, q) && Ino(after, q) == Ino(s, q)
  }

  lemma OldNumbers(s: Snapshot, after: Snapshot)
    requires Numbered(s) && s.inode <= after.inode
    requires forall q :: q in after.v.tree ==> SameNumber(s, after, q)
    ensures Numbered(after)
  {
  }

  lemma OneNewNumber(s: Snapshot, after: Snapshot, c: Path)
    requires Numbered(s) && after.inode == s.inode + 1
    requires forall q :: q in after.v.tree && q != c ==> SameNumber(s, after, q)
    requires c in after.v.tree ==> HasNode(after, c) && Ino(after, c) == s.inode
    ensures Numbered(after)
  {
  }

  // ---- Commands ---------------------------------------------------------------

  lemma LinkKeepsNumbers(s: Snapshot, root: nat, p: Path, x: string, content: Content, after: Snapshot, n: nat, e: nat,
                         q: Path)
    requires Sound(s, root) && IsDir(s.v.tree, p) && NodeAt(s.objs, s.v, p)
    requires Linked(s.objs, s.v, p, x, content, after.objs, after.v, n, e)
    requires q in after.v.tree && q != In(p, x)
    ensures SameNumber(s, after, q)
  {
    hide EntryAt, FileAt, Tiled, StoreOk, Shape, Live;
    LinkedTree(s.objs, s.v, p, x, content, after.objs, after.v, n, e);
    ShapeAt(s.objs, root, s.v, q);
  }

  lemma FileNumbered(s: Snapshot, root: nat, p: Path, x: string, after: Snapshot)
    requires Sound(s, root) && LinkReady(s.objs, root, s.v, p, x) && Numbered(s)
    requires FileCreated(s.objs, s.v, s.blocks, s.inode, p, x, after.objs, after.v, after.blocks)
    requires after.inode == s.inode + 1
    ensures Numbered(after)
  {
    hide Numbered, Tiled, Live, StoreOk, Shape, Linked, NodeAt, FileStore, LinkView, FileGrants;
    var (g, c) := (FileGrants(s.blocks).value, In(p, x));
    ShapeAt(s.objs, root, s.v, p);
    LinkFree(s.objs, root, s.v, p, x);
    FileGranted(s.blocks, s.objs);
    FileIsLinked(s.objs, s.v, p, x, s.inode, g.node, g.entry);
    forall q | q in after.v.tree && q != c ensures SameNumber(s, after, q) {
      LinkKeepsNumbers(s, root, p, x, File([]), after, g.node, g.entry, q);
    }
    NewFileNumber(s, p, x, g, after);
    OneNewNumber(s, after, c);
  }

  lemma NewFileNumber(s: Snapshot, p: Path, x: string, g: FileGrant, after: Snapshot)
    requires FileCreated(s.objs, s.v, s.blocks, s.inode, p, x, after.objs, after.v, after.blocks)
    requires g == FileGrants(s.blocks).value && g.node != g.entry
    ensures HasNode(after, In(p, x)) && Ino(after, In(p, x)) == s.inode
  {
    hide FileGrants;
  }

  lemma DirNumbered(s: Snapshot, root: nat, p: Path, x: string, after: Snapshot)
    requires Sound(s, root) && LinkReady(s.objs, root, s.v, p, x) && Numbered(s)
    requires DirCreated(s.objs, s.v, s.blocks, s.inode, p, x, after.objs, after.v, after.blocks)
    requires after.inode == s.inode + 1
    ensures Numbered(after)
  {
    hide Numbered, Tiled, Live, StoreOk, Shape, Linked, NodeAt, DirStore, LinkView, DirGrants;
    var (g, c) := (DirGrants(s.blocks).value, In(p, x));
    ShapeAt(s.objs, root, s.v, p);
    LinkFree(s.objs, root, s.v, p, x);
    DirGranted(s.blocks, s.objs);
    DirIsLinked(s.objs, s.v, p, x, s.inode, g.node, g.struct, g.entry);
    forall q | q in after.v.tree && q != c ensures SameNumber(s, after, q) {
      LinkKeepsNumbers(s, root, p, x, Dir([]), after, g.node, g.entry, q);
    }
    NewDirNumber(s, p, x, g, after);
    OneNewNumber(s, after, c);
  }

  lemma NewDirNumber(s: Snapshot, p: Path, x: string, g: DirGrant, after: Snapshot)
    requires DirCreated(s.objs, s.v, s.blocks, s.inode, p, x, after.objs, after.v, after.blocks)
    requires g == DirGrants(s.blocks).value && g.node != g.entry && g.node != g.struct
    ensures HasNode(after, In(p, x)) && Ino(after, In(p, x)) == s.inode
  {
    hide DirGrants;
  }

  /** A node that was not made does not change any number; the counter may have moved. */
  lemma UnchangedNumbered(s: Snapshot, after: Snapshot)
    requires Numbered(s) && after.objs == s.objs && after.v == s.v && s.inode <= after.inode
    ensures Numbered(after)
  {
    OldNumbers(s, after);
  }

  lemma DeleteNumbered(s: Snapshot, root: nat, p: Path, x: string, after: Snapshot)
    requires Sound(s, root) && Sound(after, root) && Numbered(s) && after.inode == s.inode
    requires Removed(s.objs, s.v, p, x, s.blocks, after.objs, after.v, after.blocks)
    ensures Numbered(after)
  {
    hide Numbered, Tiled, Live, StoreOk, Shape, CanGo, AfterDelete, FreeAll, Freed;
    DeletedTree(s.objs, s.v, p, x);
    forall q | q in after.v.tree ensures SameNumber(s, after, q) {
      ShapeAt(s.objs, root, s.v, q);
      ShapeAt(after.objs, root, after.v, q);
      DeletedKeeps(s.objs, s.v, p, x, s.v.at[q]);
    }
    OldNumbers(s, after);
  }

  lemma WriteNumbered(s: Snapshot, root: nat, q: Path, offset: nat, data: seq<byte>, after: Snapshot)
    requires Sound(s, root) && Sound(after, root) && Numbered(s) && after.inode == s.inode && q in s.v.at
    requires Wrote(s.objs, s.blocks, s.v, s.v.at[q], q, offset, data, after.objs, after.blocks, after.v)
    requires offset + |data| <= 0x8000_0000
    ensures Numbered(after)
  {
    hide Numbered, Tiled, Live, StoreOk, Shape, DataStays, WriteFits, Written, Mine;
    WriterOwns(s.objs, root, s.v, s.blocks, q, offset + |data|);
    WriterOwnsAfter(s.objs, s.blocks, s.v.at[q], offset + |data|, root, after.objs, after.v, q);
    WriterKeepsNumber(s, q, offset + |data|, after);
    forall p | p in after.v.tree ensures SameNumber(s, after, p) {
      if p != q {
        OtherKeepsNumber(s, root, q, Mine(s.objs, s.blocks, s.v.at[q], offset + |data|), after, p);
      }
    }
    OldNumbers(s, after);
  }

  lemma WriterKeepsNumber(s: Snapshot, q: Path, end: nat, after: Snapshot)
    requires q in s.v.tree && q in s.v.at && q in after.v.tree && after.v.at == s.v.at
    requires WriteFits(s.objs, s.v.at[q], end, s.blocks) && DataStays(s.objs, s.blocks, s.v.at[q], end, after.objs)
    ensures SameNumber(s, after, q)
  {
  }

  lemma OtherKeepsNumber(s: Snapshot, root: nat, q: Path, mine: set<nat>, after: Snapshot, p: Path)
    requires Sound(s, root) && p in s.v.tree && q in s.v.tree && p != q && after.v.at == s.v.at && p in after.v.tree
    requires SameBut(s.objs, after.objs, mine) && OnlyOwns(s.objs, s.v, q, mine)
    ensures SameNumber(s, after, p)
  {
    ShapeAt(s.objs, root, s.v, p);
    hide Tiled, Live, Shape, EntryAt, FileAt, Owns;
    OwnsItself(s.objs, s.v, p);
    if s.v.at[p] in mine {
      OneOwner(s.objs, Live(s.blocks), root, s.v, p, q, s.v.at[p]);
    }
  }

  /** The counter moves by at most one, and exactly if a node was asked for and its block was there. */
  lemma CounterMoves(bs: seq<Block>, inode: u32)
    requires inode + 1 < U32_LIMIT
    ensures inode <= InodeAfter(bs, inode) <= inode + 1
    ensures FileGrants(bs).Some? || DirGrants(bs).Some? ==> InodeAfter(bs, inode) == inode + 1
  {
    hide Malloc;
  }

  lemma MakesFileNumbered(root: nat, s: Snapshot, path: string, ok: bool, after: Snapshot)
    requires Sound(s, root) && |FileName(path)| <= NAME_MAX && MakesFile(s, path, ok, after)
    requires Numbered(s) && s.inode + 1 < U32_LIMIT
    ensures Numbered(after) && s.inode <= after.inode <= s.inode + 1
  {
    hide Numbered, Tiled, Live, Shape, StoreOk, FileCreated, Target, FileName, InodeAfter;
    CounterMoves(s.blocks, s.inode);
    if ok {
      TargetReady(s, root, path);
      FileNumbered(s, root, Target(s.v.tree, path).value, FileName(path), after);
    } else {
      UnchangedNumbered(s, after);
    }
  }

  lemma MakesDirNumbered(root: nat, s: Snapshot, path: string, ok: bool, after: Snapshot)
    requires Sound(s, root) && |FileName(path)| <= NAME_MAX && MakesDir(s, path, ok, after)
    requires Numbered(s) && s.inode + 1 < U32_LIMIT
    ensures Numbered(after) && s.inode <= after.inode <= s.inode + 1
  {
    hide Numbered, Tiled, Live, Shape, StoreOk, DirCreated, Target, FileName, InodeAfter;
    CounterMoves(s.blocks, s.inode);
    if ok {
      TargetReady(s, root, path);
      DirNumbered(s, root, Target(s.v.tree, path).value, FileName(path), after);
    } else {
      UnchangedNumbered(s, after);
    }
  }

  lemma WritesToNumbered(root: nat, s: Snapshot, q: Path, offset: nat, data: seq<byte>, ok: bool, after: Snapshot)
    requires Sound(s, root) && Sound(after, root) && Numbered(s)
    requires WritesTo(s, q, offset, data, ok, after) && offset + |data| <= 0x8000_0000
    ensures Numbered(after) && after.inode == s.inode
  {
    hide Numbered, Tiled, Live, Shape, StoreOk, Wrote, WriteFits;
    if ok {
      WriteNumbered(s, root, q, offset, data, after);
    } else {
      UnchangedNumbered(s, after);
    }
  }

  lemma WritesNumbered(root: nat, s: Snapshot, path: string, data: seq<byte>, ok: bool, after: Snapshot)
    requires Sound(s, root) && Sound(after, root) && |FileName(path)| <= NAME_MAX && |data| <= 0x8000_0000
    requires Writes(s, path, data, ok, after) && Numbered(s) && s.inode + 1 < U32_LIMIT
    ensures Numbered(after) && s.inode <= after.inode <= s.inode + 1
  {
    hide Numbered, Sound, MakesFile, WritesTo, Resolved, Creatable, FileName;
    if OpenFits(s, path) {
      var q := Opened(s.v.tree, path).value.1;
      var mid :| Opens(s, path, true, mid) && WritesTo(mid, q, 0, data, ok, after);
      if Resolved(s.v.tree, path).None? {
        MakesFileKeeps({}, root, s, path, true, mid);
        MakesFileNumbered(root, s, path, true, mid);
      }
      WritesToNumbered(root, mid, q, 0, data, ok, after);
    } else {
      MakesFileNumbered(root, s, path, false, after);
    }
  }

  lemma EffectNumbered(root: nat, s: Snapshot, c: Command, o: Outcome, after: Snapshot)
    requires Sound(s, root) && Sound(after, root) && Wellformed(c) && Effect(s, c, o, after)
    requires Numbered(s) && s.inode + 1 < U32_LIMIT
    ensures Numbered(after) && s.inode <= after.inode <= s.inode + 1
  {
    hide Numbered, Removed, Deletable, Target, FileName, Sound, MakesDir, MakesFile, Writes;
    match c
    case MakeDir(path) => MakesDirNumbered(root, s, path, o.ok, after);
    case MakeFile(path) => MakesFileNumbered(root, s, path, o.ok, after);
    case Remove(path) =>
      if o.ok {
        DeleteNumbered(s, root, Target(s.v.tree, path).value, FileName(path), after);
      } else {
        UnchangedNumbered(s, after);
      }
    case WriteFile(path, words) => WritesNumbered(root, s, path, ToBytes(Joined(words)), o.ok, after);
    case ShowFile(name) =>
    case List(where) =>
    case ReadBytes(path, offset, size) =>
    case WriteBytes(path, offset, data) =>
      if Resolved(s.v.tree, path).Some? {
        WritesToNumbered(root, s, Resolved(s.v.tree, path).value, offset, data,
                         WriteFitsThere(s, path, offset + |data|), after);
      }
  }

  // ---- Sessions -----------------------------------------------------------------

  lemma {:induction false} TraceNumbered(root: nat, states: seq<Snapshot>, commands: seq<Command>,
                                         outcomes: seq<Outcome>, n: nat)
    requires Trace(states, commands, outcomes) && AllSound(root, states) && AllWellformed(commands) && n <= |commands|
    requires Numbered(states[0]) && states[0].inode + n < U32_LIMIT
    ensures Numbered(states[n]) && states[0].inode <= states[n].inode <= states[0].inode + n
  {
    hide Numbered, Sound, Effect, Wellformed;
    if n > 0 {
      TraceNumbered(root, states, commands, outcomes, n - 1);
      EffectNumbered(root, states[n - 1], commands[n - 1], outcomes[n - 1], states[n]);
    }
  }

  lemma RootNumbered(bs: seq<Block>, inode: u32, root: nat, s: Snapshot)
    requires RootOnly(bs, inode, root, s) && inode + 1 < U32_LIMIT
    ensures Numbered(s) && s.inode == inode + 1
  {
    hide Malloc;
  }

  lemma DefaultNumbered(root: nat, s: Snapshot, name: string, after: Snapshot)
    requires Sound(s, root) && Sound(after, root) && DefaultTried(s, name, after)
    requires Numbered(s) && s.inode + 1 < U32_LIMIT
    ensures Numbered(after) && s.inode <= after.inode <= s.inode + 1
  {
    hide Numbered, DirCreated, Shape, StoreOk, Tiled, Live, InodeAfter;
    CounterMoves(s.blocks, s.inode);
    if DirGrants(s.blocks).Some? {
      CreatedReady(s.objs, root, s.v, s.blocks, s.inode, Root, name, after.objs, after.v, after.blocks);
      DirNumbered(s, root, Root, name, after);
    } else {
      UnchangedNumbered(s, after);
    }
  }

  /** From the mount on: as long as fewer than 2^32 nodes can have been made, no two nodes of the tree have the same
      number. */
  lemma NumbersAreUnique(bs: seq<Block>, inode: u32, root: nat, mounting: seq<Snapshot>,
                         states: seq<Snapshot>, commands: seq<Command>, outcomes: seq<Outcome>, n: nat)
    requires Mounting(bs, inode, root, mounting) && |states| > 0 && states[0] == mounting[3]
    requires Trace(states, commands, outcomes) && AllSound(root, states) && AllWellformed(commands)
    requires n <= |commands| && inode + 4 + n < U32_LIMIT
    ensures Numbered(states[n])
  {
    hide Numbered, RootOnly, DefaultTried, Sound, Trace, AllWellformed;
    RootNumbered(bs, inode, root, mounting[0]);
    DefaultNumbered(root, mounting[0], "dev", mounting[1]);
    DefaultNumbered(root, mounting[1], "proc", mounting[2]);
    DefaultNumbered(root, mounting[2], "tmp", mounting[3]);
    TraceNumbered(root, states, commands, outcomes, n);
  }

  /** What a listing is good for then: the numbers of two entries agree exactly if the names mean the same node. */
  lemma NumberTellsNode(s: Snapshot, p: Path, i: nat, d: Dirent, q: Path, j: nat, e: Dirent)
    requires Numbered(s) && Lists(s.objs, s.v, p, i, d) && Lists(s.objs, s.v, q, j, e)
    ensures d.ino == e.ino <==> Find(s.v.tree, p, d.name) == Find(s.v.tree, q, e.name)
  {
    var (c, f) := (Find(s.v.tree, p, d.name).value, Find(s.v.tree, q, e.name).value);
    assert HasNode(s, c) && HasNode(s, f);
  }
}
