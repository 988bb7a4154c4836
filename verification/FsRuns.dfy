/**
 Whole runs of the file system: sessions of commands against the tree, and
 what the life of a file or of a directory leaves of the heap.
 */
module FsRuns {
  import opened Machine
  import opened HeapModel
  import opened HeapRuns
  import opened FsTree
  import opened FsModel
  import opened PathModel
  import opened SkullFs
  import opened Libc
  import opened Words
  import opened PathWalk
  import opened FsCommands

  // ---- Sessions --------------------------------------------------------------

  /** The commands of the shell, and reads and writes anywhere in the file of a path. */
  datatype Command =
    | MakeDir(path: string)
    | MakeFile(path: string)
    | Remove(path: string)
    | WriteFile(path: string, words: seq<string>)
    | ShowFile(name: string)
    | List(where: Option<string>)
    | ReadBytes(path: string, offset: nat, size: nat)
    | WriteBytes(path: string, offset: nat, data: seq<byte>)

  datatype Outcome = Outcome(ok: bool, shown: Option<seq<byte>>, lines: Option<seq<string>>)

  /** What the shell guarantees of a command line, and what the file system asks of its callers. */
  predicate Wellformed(c: Command) {
    match c
    case MakeDir(path) => NUL !in path && |FileName(path)| <= NAME_MAX
    case MakeFile(path) => NUL !in path && |FileName(path)| <= NAME_MAX
    case Remove(path) => NUL !in path
    case WriteFile(path, words) =>
      NUL !in path && |FileName(path)| <= NAME_MAX && Texts(words)
    case ShowFile(name) => true
    case List(where) => where.Some? ==> NUL !in where.value
    case ReadBytes(path, offset, size) => NUL !in path && offset + size < U32_LIMIT
    case WriteBytes(path, offset, data) => NUL !in path && offset + |data| <= 0x8000_0000
  }

  /** `.` or `..` is removed only where the code refuses to. */
  predicate Allowed(t: Tree, c: Command) {
    c.Remove? ==> RemovesNoSelf(t, c.path)
  }

  /** A command that is allowed in every state. */
  predicate NoSelf(c: Command) {
    c.Remove? ==> FileName(c.path) != DOT && FileName(c.path) != DOTDOT
  }

  /** The meaning of a command: exactly when it succeeds, and what is then different. */
  ghost predicate Effect(s: Snapshot, c: Command, o: Outcome, after: Snapshot) {
    match c
    case MakeDir(path) => MakesDir(s, path, o.ok, after)
    case MakeFile(path) => MakesFile(s, path, o.ok, after)
    case Remove(path) => Removes(s, path, o.ok, after)
    case WriteFile(path, words) =>
      Writes(s, path, ToBytes(Joined(words)), o.ok, after) && (o.ok <==> WriteSucceeds(s, path, |Joined(words)|))
    case ShowFile(name) => after == s && o.shown == Shown(s.v.tree, name)
    case List(where) => after == s && o.lines == Listed(s.v.tree, where)
    case ReadBytes(path, offset, size) => after == s && o.shown == Some(ReadThere(s.v.tree, path, offset, size))
    case WriteBytes(path, offset, data) =>
      WritesThere(s, path, offset, data, after) && (o.ok <==> data == [] || WriteFitsThere(s, path, offset + |data|))
  }

  method Perform(fs: FileSystem, c: Command) returns (o: Outcome)
    requires fs.Valid() && fs.root != NULL && Wellformed(c) && Allowed(fs.v.tree, c)
    modifies fs, fs.heap, fs.heap.mem
    ensures fs.Valid() && fs.root == old(fs.root)
    ensures Effect(old(Now(fs)), c, o, Now(fs))
  {
    hide Inv;
    var ok := true;
    var shown: Option<seq<byte>>, lines: Option<seq<string>> := None, None;
    match c {
      case MakeDir(path) => ok := Mkdir(fs, path);
      case MakeFile(path) => ok := Touch(fs, path);
      case Remove(path) => ok := Rm(fs, path);
      case WriteFile(path, words) => ok := WriteText(fs, path, words);
      case ShowFile(name) => shown := Cat(fs, name);
      case List(where) => lines := Ls(fs, where);
      case ReadBytes(path, offset, size) =>
        var data := ReadAt(fs, path, offset, size);
        shown := Some(data);
      case WriteBytes(path, offset, data) => ok := WriteAt(fs, path, offset, data);
    }
    o := Outcome(ok, shown, lines);
  }

  /** The commands, one after the other, have their effects; `states` are the states in between. */
  ghost predicate Trace(states: seq<Snapshot>, commands: seq<Command>, outcomes: seq<Outcome>) {
    && |states| == |commands| + 1 && |outcomes| == |commands|
    && forall i :: 0 <= i < |commands| ==> Effect(states[i], commands[i], outcomes[i], states[i + 1])
  }

  lemma TraceMore(states: seq<Snapshot>, commands: seq<Command>, outcomes: seq<Outcome>, c: Command, o: Outcome,
                  after: Snapshot)
    requires Trace(states, commands, outcomes) && Effect(states[|commands|], c, o, after)
    ensures Trace(states + [after], commands + [c], outcomes + [o])
  {
    hide Effect;
  }

  /** Any session: every command has its effect on the state the one before it left. */
  method Session(fs: FileSystem, commands: seq<Command>) returns (outcomes: seq<Outcome>, ghost states: seq<Snapshot>)
    requires fs.Valid() && fs.root != NULL && forall c :: c in commands ==> Wellformed(c) && NoSelf(c)
    modifies fs, fs.heap, fs.heap.mem
    ensures fs.Valid() && fs.root == old(fs.root) && fs.heap.SeenWithin(0, 0, READING_MAX)
    ensures Trace(states, commands, outcomes) && states[0] == old(Now(fs)) && states[|commands|] == Now(fs)
    ensures forall s :: s in states ==> Sound(s, fs.root)
  {
    hide Inv, Effect;
    outcomes, states := [], [Now(fs)];
    for i := 0 to |commands|
      invariant fs.Valid() && fs.root == old(fs.root)
      invariant Trace(states, commands[..i], outcomes) && states[0] == old(Now(fs)) && states[i] == Now(fs)
      invariant forall s :: s in states ==> Sound(s, fs.root)
    {
      var o := Perform(fs, commands[i]);
      TraceMore(states, commands[..i], outcomes, commands[i], o, Now(fs));
      outcomes, states := outcomes + [o], states + [Now(fs)];
      assert commands[..i + 1] == commands[..i] + [commands[i]];
    }
    assert commands[..|commands|] == commands;
  }

  /** `skullfs_init` right after `memory_init`: there is room for the root and for all three default directories. */
  method MountAtBoot(fs: FileSystem) returns (r: nat, ghost mounting: seq<Snapshot>)
    requires fs.heap.Valid() && fs.heap.blocks == INITIAL && fs.objs == map[]
    modifies fs, fs.heap, fs.heap.mem
    ensures fs.Valid() && r != NULL && fs.root == r && fs.Refers(r, Root)
    ensures fs.v.tree == Directories(["tmp", "proc", "dev"]) && Tiled(fs.heap.blocks) && Bumped(fs.heap.blocks, 64152)
    ensures Mounting(INITIAL, old(fs.nextInode), r, mounting) && Now(fs) == mounting[3]
  {
    hide Tiled, Bumped, Directories, Mounting;
    BootRoot();
    r, mounting := fs.Mount();
    BootHasRoom(old(fs.nextInode), r, mounting);
    RootIsReferred(fs);
  }

  /** From `memory_init` and `skullfs_init` on: the session starts on the three default directories. */
  method SessionFromBoot(fs: FileSystem, commands: seq<Command>)
      returns (outcomes: seq<Outcome>, ghost mounting: seq<Snapshot>, ghost states: seq<Snapshot>)
    requires fs.heap.Valid() && fs.heap.blocks == INITIAL && fs.objs == map[]
    requires forall c :: c in commands ==> Wellformed(c) && NoSelf(c)
    modifies fs, fs.heap, fs.heap.mem
    ensures fs.Valid() && Mounting(INITIAL, old(fs.nextInode), fs.root, mounting) && |states| > 0
            && states[0] == mounting[3]
    ensures states[0].v.tree == Directories(["tmp", "proc", "dev"]) && Bumped(states[0].blocks, 64152)
    ensures Trace(states, commands, outcomes) && states[|commands|] == Now(fs)
    ensures forall s :: s in states ==> Sound(s, fs.root)
  {
    hide Inv, Effect, Bumped, Directories, Mounting;
    var r;
    r, mounting := MountAtBoot(fs);
    outcomes, states := Session(fs, commands);
  }

  lemma WrittenAtStart(before: seq<byte>, data: seq<byte>, after: seq<byte>)
    requires Written(before, 0, data, after)
    ensures after == data + if |data| < |before| then before[|data|..] else []
  {
    assert after[0..0 + |data|] == after[..|data|];
    if |data| < |before| {
      forall i | |data| <= i < |before| ensures after[i] == before[|data|..][i - |data|] {
      }
      assert after[|data|..] == before[|data|..];
      assert after == after[..|data|] + after[|data|..];
    } else {
      assert after == after[..|data|];
    }
  }

  /** A name without a slash is looked up in the root. */
  lemma PlainOpened(t: Tree, x: string, r: Option<Path>, d: Option<Path>)
    requires IsDir(t, Root) && SLASH !in x && x != "" && x != DOT && x != DOTDOT && |x| <= NAME_MAX
    requires r == Resolved(t, x) && d == Target(t, x)
    ensures In(Root, x) in t ==> Opened(t, x) == Some((t, In(Root, x)))
    ensures In(Root, x) !in t ==> Opened(t, x) == Some((Link(t, Root, x, File([])), In(Root, x)))
  {
    NoSlashBehind(x);
    assert x[LastSlash(x) + 1..] == x;
    assert ParentWalked(x) == "" && Components("") == [];
    ResolvedBySteps(t, x);
    assert d == Some(Root) && r == Find(t, Root, x);
  }

  /** What was written to a file in the root is what `cat` then shows, with the rest of a longer old text behind it. */
  lemma CatShowsWhatWasWritten(t: Tree, x: string, data: seq<byte>, after: Tree)
    requires TreeOk(t) && SLASH !in x && x != "" && x != DOT && x != DOTDOT && |x| <= NAME_MAX
    requires Opened(t, x).Some? && WroteTo(Opened(t, x).value.0, Opened(t, x).value.1, 0, data, after)
    ensures var was := if Shown(t, x).Some? then Shown(t, x).value else [];
            Shown(after, x) == Some(data + if |data| < |was| then was[|data|..] else [])
  {
    PlainOpened(t, x, Resolved(t, x), Target(t, x));
    var start := Opened(t, x).value.0;
    var q := In(Root, x);
    WrittenAtStart(start[q].bytes, data, after[q].bytes);
  }

  lemma TreeOfSound(s: Snapshot, root: nat)
    requires Sound(s, root)
    ensures TreeOk(s.v.tree)
  {
  }

  // ---- What the life of a file leaves of the heap ----------------------------

  lemma UndoFile(bs: seq<Block>, used: seq<Block>)
    requires Tiled(bs) && FileGrants(bs).Some? && Tiled(used) && Coarser(used, FileGrants(bs).value.blocks)
    ensures var g := FileGrants(bs).value;
            Coarser(Free(Free(used, g.entry), g.node), bs)
  {
    var n := Malloc(bs, RoundUp(NODE_SIZE)).blocks;
    RoundUpAligned(NODE_SIZE);
    RoundUpAligned(ENTRY_SIZE);
    MallocTiles(bs, RoundUp(NODE_SIZE), HEAP_START);
    FreeUndoesMalloc(n, RoundUp(ENTRY_SIZE), used);
    FreeUndoesMalloc(bs, RoundUp(NODE_SIZE), Free(used, FileGrants(bs).value.entry));
  }

  lemma UndoData(bs: seq<Block>, capacity: nat)
    requires Tiled(bs) && capacity < U32_LIMIT && DataGrants(bs, capacity).Some?
    ensures var g := DataGrants(bs, capacity).value;
            Tiled(Free(Free(g.blocks, g.data), g.fd)) && Coarser(Free(Free(g.blocks, g.data), g.fd), bs)
  {
    var f := Malloc(bs, RoundUp(DATA_SIZE)).blocks;
    var g := DataGrants(bs, capacity).value;
    RoundUpAligned(DATA_SIZE);
    RoundUpAligned(capacity);
    MallocTiles(bs, RoundUp(DATA_SIZE), HEAP_START);
    MallocTiles(f, RoundUp(capacity), HEAP_START);
    FreeUndoesMalloc(f, RoundUp(capacity), g.blocks);
    FreeUndoesMalloc(bs, RoundUp(DATA_SIZE), Free(g.blocks, g.data));
  }

  /** The heap the writes of a file's life leave: none of its data, or the grant of its first write. */
  ghost predicate DataLife(bs: seq<Block>, capacity: nat, objs: Store, file: nat, used: seq<Block>) {
    && file in objs && objs[file].Node?
    && var fd := objs[file].ptr;
       if fd == NULL then Coarser(used, bs)
       else capacity < U32_LIMIT && DataGrants(bs, capacity).Some? && DataOk(objs, fd)
            && var g := DataGrants(bs, capacity).value;
               fd == g.fd && objs[fd].data == g.data && objs[fd].capacity == capacity && used == g.blocks
  }

  /** Freeing the records of a file in the order of a delete undoes all its allocations. */
  lemma LifeUndone(bs: seq<Block>, capacity: nat, objs: Store, file: nat, used: seq<Block>)
    requires Tiled(bs) && FileGrants(bs).Some? && Tiled(used) && file == FileGrants(bs).value.node
    requires DataLife(FileGrants(bs).value.blocks, capacity, objs, file, used)
    ensures var g := FileGrants(bs).value;
            var behind := if objs[file].ptr == NULL then [] else [objs[objs[file].ptr].data, objs[file].ptr];
            Coarser(FreeAll(used, behind + [g.entry, g.node]), bs)
  {
    var g := FileGrants(bs).value;
    var n := Malloc(bs, RoundUp(NODE_SIZE)).blocks;
    RoundUpAligned(NODE_SIZE);
    RoundUpAligned(ENTRY_SIZE);
    MallocTiles(bs, RoundUp(NODE_SIZE), HEAP_START);
    MallocTiles(n, RoundUp(ENTRY_SIZE), HEAP_START);
    if objs[file].ptr == NULL {
      FreeAllThenTwo(used, [], g.entry, g.node);
      UndoFile(bs, used);
    } else {
      var (data, fd) := (objs[objs[file].ptr].data, objs[file].ptr);
      FreeAllTwo(used, data, fd);
      FreeAllThenTwo(used, [data, fd], g.entry, g.node);
      UndoData(g.blocks, capacity);
      UndoFile(bs, Free(Free(used, data), fd));
    }
  }

  lemma LifeGoesOn(bs: seq<Block>, capacity: nat, objs: Store, file: nat, used: seq<Block>, end: nat, after: Store,
                   now: seq<Block>)
    requires DataLife(bs, capacity, objs, file, used) && end <= capacity && 0 < capacity < U32_LIMIT
    requires objs[file].ptr == NULL ==> used == bs && capacity == FirstCapacity(end)
    requires WriteFits(objs, file, end, used) && now == WriteHeap(objs, file, end, used)
    requires DataStays(objs, used, file, end, after)
    ensures DataLife(bs, capacity, after, file, now) && after[file].ptr != NULL
  {
    if objs[file].ptr != NULL {
      assert Grown(capacity, end) == capacity;
    } else {
      var g := DataGrants(bs, capacity).value;
      assert g.fd != NULL;
    }
  }

  /** One write within the capacity. */
  method WriteWithin(fs: FileSystem, file: nat, offset: nat, data: seq<byte>, capacity: nat, ghost bs: seq<Block>,
                     ghost c: Path)
    requires fs.Valid() && fs.Refers(file, c) && fs.v.tree[c].File? && file != NULL
    requires 0 < capacity <= 0x8000_0000 && offset + |data| <= capacity
    requires DataLife(bs, capacity, fs.objs, file, fs.heap.blocks)
    requires fs.objs[file].ptr == NULL ==> fs.heap.blocks == bs && capacity == FirstCapacity(offset + |data|)
    modifies fs, fs.heap, fs.heap.mem
    ensures fs.Valid() && fs.v.at == old(fs.v).at && fs.v.chain == old(fs.v).chain
    ensures c in fs.v.tree && fs.v.tree[c].File? && fs.v.tree == old(fs.v).tree[c := fs.v.tree[c]]
    ensures DataLife(bs, capacity, fs.objs, file, fs.heap.blocks)
  {
    hide Inv, Tiled;
    ghost var (objs, used) := (fs.objs, fs.heap.blocks);
    var n;
    ghost var ok;
    n, ok := fs.Write(file, offset, data, c);
    if ok {
      LifeGoesOn(bs, capacity, objs, file, used, offset + |data|, fs.objs, fs.heap.blocks);
    } else {
      assert objs[file].ptr == NULL;
    }
  }

  /** Writes that stay within the capacity of the first one: they allocate once, and only the first can fail. */
  method WriteAll(fs: FileSystem, file: nat, offsets: seq<nat>, data: seq<seq<byte>>, capacity: nat, ghost c: Path)
    requires fs.Valid() && fs.Refers(file, c) && fs.v.tree[c].File? && file != NULL && |offsets| == |data|
    requires file in fs.objs && fs.objs[file].Node? && fs.objs[file].ptr == NULL
    requires 0 < capacity <= 0x8000_0000 && (offsets != [] ==> capacity == FirstCapacity(offsets[0] + |data[0]|))
    requires forall i :: 0 <= i < |offsets| ==> offsets[i] + |data[i]| <= capacity
    modifies fs, fs.heap, fs.heap.mem
    ensures fs.Valid() && fs.v.at == old(fs.v).at && fs.v.chain == old(fs.v).chain
    ensures c in fs.v.tree && fs.v.tree[c].File? && fs.v.tree == old(fs.v).tree[c := fs.v.tree[c]]
    ensures DataLife(old(fs.heap.blocks), capacity, fs.objs, file, fs.heap.blocks)
  {
    hide Inv, Tiled;
    var i := 0;
    while i < |offsets|
      invariant fs.Valid() && fs.v.at == old(fs.v).at && fs.v.chain == old(fs.v).chain
      invariant c in fs.v.tree && fs.v.tree[c].File? && fs.v.tree == old(fs.v).tree[c := fs.v.tree[c]]
      invariant i <= |offsets| && DataLife(old(fs.heap.blocks), capacity, fs.objs, file, fs.heap.blocks)
      invariant fs.objs[file].ptr == NULL ==> i == 0 && fs.heap.blocks == old(fs.heap.blocks)
    {
      WriteWithin(fs, file, offsets[i], data[i], capacity, old(fs.heap.blocks), c);
      if fs.objs[file].ptr == NULL {
        return;
      }
      i := i + 1;
    }
  }

  // ---- What the resizes of a file cost ------------------------------------------

  /** In every state that the operations lead to, the bytes a file's resizes have copied are at most the capacity it
      gained. */
  lemma CopiedIsPaid(objs: Store, live: map<nat, nat>, root: nat, v: View, p: Path)
    requires Inv(objs, live, root, v) && p in v.tree && v.tree[p].File?
    ensures p in v.at && v.at[p] in objs && objs[v.at[p]].Node?
    ensures var fd := objs[v.at[p]].ptr;
            fd != NULL ==> fd in objs && objs[fd].FileData? && objs[fd].copied <= objs[fd].capacity - objs[fd].first
  {
    FileRecord(objs, live, root, v, p);
  }

  /** The meter of the data record of `file`. */
  function FileMeter(objs: Store, file: nat): Growth
    requires file in objs && objs[file].Node? && DataOk(objs, objs[file].ptr)
  {
    Meter(objs[objs[file].ptr])
  }

  /** Any run of writes to a file moves its size, its capacity and the bytes copied as the meter says; `ends` are the
      ends of the writes that found their memory. */
  method WriteRun(fs: FileSystem, file: nat, offsets: seq<nat>, data: seq<seq<byte>>,
                  ghost c: Path) returns (ghost ends: seq<nat>)
    requires fs.Valid() && fs.Refers(file, c) && fs.v.tree[c].File? && file != NULL && |offsets| == |data|
    requires file in fs.objs && fs.objs[file].Node? && DataOk(fs.objs, fs.objs[file].ptr)
    requires forall i :: 0 <= i < |offsets| ==> offsets[i] + |data[i]| <= 0x8000_0000
    modifies fs, fs.heap, fs.heap.mem
    ensures fs.Valid() && fs.v.at == old(fs.v).at && |ends| <= |offsets|
    ensures file in fs.objs && fs.objs[file].Node? && DataOk(fs.objs, fs.objs[file].ptr)
    ensures FileMeter(fs.objs, file) == AfterWrites(old(FileMeter(fs.objs, file)), ends)
    ensures FileMeter(fs.objs, file).copied - old(FileMeter(fs.objs, file)).copied
            <= FileMeter(fs.objs, file).capacity - old(FileMeter(fs.objs, file)).capacity
  {
    hide Inv, Tiled, Written;
    ghost var start := FileMeter(fs.objs, file);
    ends := [];
    for i := 0 to |offsets|
      invariant fs.Valid() && fs.v.at == old(fs.v).at && |ends| <= i
      invariant c in fs.v.tree && fs.v.tree[c].File?
      invariant file in fs.objs && fs.objs[file].Node? && DataOk(fs.objs, fs.objs[file].ptr)
      invariant FileMeter(fs.objs, file) == AfterWrites(start, ends)
    {
      ghost var before := fs.objs;
      NoNullData(fs, c);
      var n, ok := fs.Write(file, offsets[i], data[i], c);
      if ok {
        assert (ends + [offsets[i] + |data[i]|])[..|ends|] == ends;
        ends := ends + [offsets[i] + |data[i]|];
      }
    }
    CopyingIsAmortised(start, ends);
  }

  lemma NoNullData(fs: FileSystem, c: Path)
    requires fs.Valid()
    ensures NULL !in fs.objs
  {
  }

  lemma {:induction false} NothingBelow(t: Tree, c: Path, q: Path)
    requires TreeOk(t) && c !in t && Under(c, q)
    ensures q !in t
  {
    if q != c {
      NothingBelow(t, c, q.dir);
    }
  }

  /** Deleting what was just created, whatever was written to it, gives the old tree. */
  lemma PruneUndoesLink(t: Tree, p: Path, x: string, content: Content, after: Tree)
    requires TreeOk(t) && IsDir(t, p) && In(p, x) !in t
    requires In(p, x) in after && after == Link(t, p, x, content)[In(p, x) := after[In(p, x)]]
    ensures IsDir(after, p) && x in after[p].names && IndexOf(after[p].names, x) == 0
    ensures Prune(after, p, x) == t
  {
    hide TreeOk;
    var c := In(p, x);
    var pruned := Prune(after, p, x);
    SiblingNotUnder(p, x, x + "-");
    assert RemoveAt(after[p].names, 0) == t[p].names;
    forall q ensures q in pruned <==> q in t {
      if q in t && Under(c, q) {
        NothingBelow(t, c, q);
      }
    }
    forall q | q in t ensures pruned[q] == t[q] {
    }
  }

  /** The order in which a delete frees the records of the newest entry of a directory, a file. */
  lemma DeletedInOrder(objs: Store, v: View, p: Path, x: string, bs: seq<Block>,
                       objs': Store, after: View, bs': seq<Block>, entry: nat, file: nat)
    requires Removed(objs, v, p, x, bs, objs', after, bs') && IndexOf(v.tree[p].names, x) == 0
    requires v.chain[p][0] == entry && v.at[In(p, x)] == file && v.tree[In(p, x)].File?
    requires objs[file].ptr != NULL ==> objs[file].ptr in objs && objs[objs[file].ptr].FileData?
    ensures var behind := if objs[file].ptr == NULL then [] else [objs[objs[file].ptr].data, objs[file].ptr];
            bs' == FreeAll(bs, behind + [entry, file])
  {
  }

  /** `x` is the newest entry of a directory, and a file. */
  ghost predicate NewestFile(v: View, p: Path, x: string, entry: nat, node: nat) {
    && IsDir(v.tree, p) && x in v.tree[p].names && IndexOf(v.tree[p].names, x) == 0
    && p in v.chain && v.chain[p] != [] && v.chain[p][0] == entry
    && In(p, x) in v.tree && v.tree[In(p, x)].File? && In(p, x) in v.at && v.at[In(p, x)] == node
  }

  lemma NameIsFree(objs: Store, root: nat, v: View, p: Path, x: string)
    requires Shape(objs, root, v) && IsDir(v.tree, p) && Find(v.tree, p, x) == None
    ensures TreeOk(v.tree) && In(p, x) !in v.tree && x != DOT && x != DOTDOT
  {
  }

  lemma CreatedIsNewest(objs: Store, v: View, bs: seq<Block>, inode: u32, p: Path, x: string, objs': Store, v': View,
                        bs': seq<Block>)
    requires FileCreated(objs, v, bs, inode, p, x, objs', v', bs')
    ensures var g := FileGrants(bs).value;
            && NewestFile(v', p, x, g.entry, g.node) && v'.tree == Link(v.tree, p, x, File([])) && bs' == g.blocks
            && (p in v.tree && p in v.at ==> p in v'.tree && p in v'.at && v'.at[p] == v.at[p])
  {
  }

  method MakeNewest(fs: FileSystem, parent: nat, name: string, ghost p: Path) returns (file: nat)
    requires fs.Valid() && fs.Refers(parent, p) && parent != NULL && |name| <= NAME_MAX
    modifies fs, fs.heap, fs.heap.mem
    ensures fs.Valid() && Tiled(old(fs.heap.blocks))
    ensures file == NULL ==> fs.v == old(fs.v) && Coarser(fs.heap.blocks, old(fs.heap.blocks))
    ensures file != NULL ==>
              && FileGrants(old(fs.heap.blocks)).Some?
              && var (g, t) := (FileGrants(old(fs.heap.blocks)).value, old(fs.v).tree);
                 && file == g.node && fs.heap.blocks == g.blocks && file in fs.objs
                     && fs.objs[file] == EmptyFile(name, old(fs.nextInode))
                 && TreeOk(t) && IsDir(t, p) && In(p, name) !in t && name != DOT && name != DOTDOT
                 && NewestFile(fs.v, p, name, g.entry, g.node) && fs.v.tree == Link(t, p, name, File([]))
                 && fs.Refers(parent, p) && fs.Refers(file, In(p, name))
  {
    hide Tiled, Malloc, Live, Coarser, Shape, FileCreated, NewestFile, Link;
    ghost var (objs, v, bs, inode) := (fs.objs, fs.v, fs.heap.blocks, fs.nextInode);
    if IsDir(v.tree, p) && Find(v.tree, p, name) == None {
      NameIsFree(objs, fs.root, v, p, name);
    }
    file := fs.CreateFile(parent, name, p);
    if file != NULL {
      CreatedIsNewest(objs, v, bs, inode, p, name, fs.objs, fs.v, fs.heap.blocks);
    }
  }

  /** Deletes the newest file of a directory, which was created on the heap `bs` and written since. */
  method DeleteWritten(fs: FileSystem, parent: nat, name: string, capacity: nat, ghost bs: seq<Block>, ghost p: Path)
    requires fs.Valid() && fs.Refers(parent, p) && parent != NULL && name != DOT && name != DOTDOT
    requires Tiled(bs) && FileGrants(bs).Some?
    requires NewestFile(fs.v, p, name, FileGrants(bs).value.entry, FileGrants(bs).value.node)
    requires DataLife(FileGrants(bs).value.blocks, capacity, fs.objs, FileGrants(bs).value.node, fs.heap.blocks)
    modifies fs, fs.heap, fs.heap.mem
    ensures fs.Valid() && fs.v.tree == Prune(old(fs.v).tree, p, name)
    ensures Coarser(fs.heap.blocks, bs)
  {
    hide Tiled, Malloc, Live, Coarser, FreeAll;
    ghost var (w, objs, used, g) := (fs.v, fs.objs, fs.heap.blocks, FileGrants(bs).value);
    var ok := fs.Delete(parent, name, p);
    DeletedInOrder(objs, w, p, name, used, fs.objs, fs.v, fs.heap.blocks, g.entry, g.node);
    LifeUndone(bs, capacity, objs, g.node, used);
  }

  /** A file is created, written within its first capacity, and deleted: tree and heap are as before. */
  method FileLife(fs: FileSystem, parent: nat, name: string, offsets: seq<nat>, data: seq<seq<byte>>, capacity: nat,
                  ghost p: Path)
    requires fs.Valid() && fs.Refers(parent, p) && parent != NULL && |name| <= NAME_MAX && |offsets| == |data|
    requires 0 < capacity <= 0x8000_0000 && (offsets != [] ==> capacity == FirstCapacity(offsets[0] + |data[0]|))
    requires forall i :: 0 <= i < |offsets| ==> offsets[i] + |data[i]| <= capacity
    modifies fs, fs.heap, fs.heap.mem
    ensures fs.Valid() && fs.v.tree == old(fs.v).tree
    ensures Coarser(fs.heap.blocks, old(fs.heap.blocks))
  {
    hide Inv, Tiled, Malloc, Live, Coarser, DataLife, Link, Prune;
    ghost var (t, bs) := (fs.v.tree, fs.heap.blocks);
    var file := MakeNewest(fs, parent, name, p);
    if file == NULL {
      return;
    }
    WriteAll(fs, file, offsets, data, capacity, In(p, name));
    PruneUndoesLink(t, p, name, File([]), fs.v.tree);
    DeleteWritten(fs, parent, name, capacity, bs, p);
  }

  // ---- What the life of a directory leaves of the heap ------------------------

  /** The frees of a delete, applied to the grants of a directory. */
  function DirLifeHeap(g: DirGrant): seq<Block> {
    FreeAll(g.blocks, [] + [g.struct] + [g.entry, g.node])
  }

  /** The entry was cut off right behind the struct. */
  predicate EntryCutBehind(bs: seq<Block>, g: DirGrant) {
    && g.struct in Live(g.blocks) && HEADER <= g.entry
    && g.entry - HEADER == g.struct + Live(g.blocks)[g.struct] && g.entry - HEADER !in Addrs(bs)
  }

  /** A directory's struct is freed before its entry, and was allocated before it: the live blocks are as before, and
      the heap is, up to merging, exactly if the entry was not cut off right behind the struct. */
  lemma DirLifeCoarsensIff(bs: seq<Block>)
    requires Tiled(bs) && DirGrants(bs).Some?
    ensures var g := DirGrants(bs).value;
            && Tiled(DirLifeHeap(g)) && Live(DirLifeHeap(g)) == Live(bs)
            && (Coarser(DirLifeHeap(g), bs) <==> !EntryCutBehind(bs, g))
  {
    hide Tiled, Malloc, Free, Live, Addrs;
    var g := DirGrants(bs).value;
    var n := Malloc(bs, RoundUp(NODE_SIZE));
    var d := Malloc(n.blocks, RoundUp(DIR_SIZE));
    RoundUpAligned(NODE_SIZE);
    RoundUpAligned(DIR_SIZE);
    RoundUpAligned(ENTRY_SIZE);
    MallocAddrs(bs, RoundUp(NODE_SIZE));
    MallocAddrs(n.blocks, RoundUp(DIR_SIZE));
    MallocAddrs(d.blocks, RoundUp(ENTRY_SIZE));
    ForwardFreesCoarsenIff(n.blocks, RoundUp(DIR_SIZE), RoundUp(ENTRY_SIZE));
    FreeAllMore(g.blocks, [], g.struct);
    FreeAllThenTwo(g.blocks, [] + [g.struct], g.entry, g.node);
    var inner := Free(Free(g.blocks, g.struct), g.entry);
    assert DirLifeHeap(g) == Free(inner, g.node);
    FreeAddrs(inner, g.node);
    EndsDiffer(d.blocks, g.node, g.struct);
    assert EntryCutBehind(bs, g) <==> CutBehind(n.blocks, d, Malloc(d.blocks, RoundUp(ENTRY_SIZE)));
    if !EntryCutBehind(bs, g) {
      FreeUndoesMalloc(bs, RoundUp(NODE_SIZE), inner);
    }
  }

  /** The order in which a delete frees the records of the newest entry of a directory, an empty directory. */
  lemma EmptyDirDeletedInOrder(objs: Store, v: View, p: Path, x: string, bs: seq<Block>, objs': Store, after: View,
                               bs': seq<Block>, g: DirGrant)
    requires Removed(objs, v, p, x, bs, objs', after, bs') && IndexOf(v.tree[p].names, x) == 0
    requires v.tree[In(p, x)].Dir? && v.chain[In(p, x)] == []
    requires v.chain[p][0] == g.entry && v.at[In(p, x)] == g.node && objs[g.node].ptr == g.struct
    ensures bs' == FreeAll(bs, [] + [g.struct] + [g.entry, g.node])
  {
  }

  lemma MadeDirStays(objs: Store, v: View, bs: seq<Block>, inode: u32, p: Path, x: string, objs': Store, v': View,
                     bs': seq<Block>)
    requires DirCreated(objs, v, bs, inode, p, x, objs', v', bs') && Tiled(bs) && StoreOk(objs, Live(bs))
    ensures var g := DirGrants(bs).value;
            && g.node in objs' && objs'[g.node] == EmptyDir(x, inode, g.struct)
            && v'.at[In(p, x)] == g.node && v'.chain[In(p, x)] == [] && v'.chain[p][0] == g.entry
  {
    DirGranted(bs, objs);
  }

  /** A directory is created and deleted again: the tree is as before, the live blocks are, and the heap is, up to
      merging, exactly if the entry was not cut off right behind the struct. */
  method DirLife(fs: FileSystem, parent: nat, name: string, ghost p: Path) returns (made: bool)
    requires fs.Valid() && fs.Refers(parent, p) && parent != NULL && |name| <= NAME_MAX
    modifies fs, fs.heap, fs.heap.mem
    ensures fs.Valid() && fs.v.tree == old(fs.v).tree && fs.root == old(fs.root)
    ensures made <==>
              IsDir(old(fs.v).tree, p) && Find(old(fs.v).tree, p, name) == None && DirGrants(old(fs.heap.blocks)).Some?
    ensures Live(fs.heap.blocks) == Live(old(fs.heap.blocks))
    ensures Coarser(fs.heap.blocks, old(fs.heap.blocks)) <==>
            !made || !EntryCutBehind(old(fs.heap.blocks), DirGrants(old(fs.heap.blocks)).value)
  {
    hide Tiled, Live, Addrs, Shape;
    ghost var (t, bs, objs) := (fs.v.tree, fs.heap.blocks, fs.objs);
    if IsDir(t, p) && Find(t, p, name) == None {
      NameIsFree(fs.objs, fs.root, fs.v, p, name);
    }
    var dir := fs.CreateDir(parent, name, p);
    made := dir != NULL;
    if !made {
      return;
    }
    MadeDirStays(objs, old(fs.v), bs, old(fs.nextInode), p, name, fs.objs, fs.v, fs.heap.blocks);
    PruneUndoesLink(t, p, name, Dir([]), fs.v.tree);
    ghost var (w, mid, used) := (fs.v, fs.objs, fs.heap.blocks);
    var ok := fs.Delete(parent, name, p);
    EmptyDirDeletedInOrder(mid, w, p, name, used, fs.objs, fs.v, fs.heap.blocks, DirGrants(bs).value);
    DirLifeCoarsensIff(bs);
  }

  /** It is, on any heap that is in use from its start on, */
  lemma BumpedCutsBehind(bs: seq<Block>, room: nat)
    requires Tiled(bs) && Bumped(bs, room) && room > 400
    ensures DirGrants(bs).Some? && EntryCutBehind(bs, DirGrants(bs).value)
  {
    hide Tiled, Bumped, Live, Malloc, Addrs;
    BumpedDir(bs, room);
  }

  lemma DirLifeFragments(bs: seq<Block>, room: nat)
    requires Tiled(bs) && Bumped(bs, room) && room > 400
    ensures DirGrants(bs).Some? && !Coarser(DirLifeHeap(DirGrants(bs).value), bs)
  {
    BumpedCutsBehind(bs, room);
    DirLifeCoarsensIff(bs);
  }

  /** such as the one a mount leaves. */
  method DirLifeAfterMount(fs: FileSystem, name: string) returns (ghost mounted: seq<Block>)
    requires fs.heap.Valid() && fs.heap.blocks == INITIAL && fs.objs == map[]
    requires |name| <= NAME_MAX && name !in DEFAULTS && name != DOT && name != DOTDOT
    modifies fs, fs.heap, fs.heap.mem
    ensures fs.Valid() && fs.v.tree == Directories(["tmp", "proc", "dev"])
    ensures Tiled(mounted) && Bumped(mounted, 64152)
    ensures Live(fs.heap.blocks) == Live(mounted) && !Coarser(fs.heap.blocks, mounted)
  {
    hide Inv, Tiled, Live, DirGrants, EntryCutBehind, Bumped, Coarser;
    var r, _ := MountAtBoot(fs);
    mounted := fs.heap.blocks;
    var ok := DirLife(fs, r, name, Root);
    BumpedCutsBehind(mounted, 64152);
  }

  /** What a new file and the first write to it take of a heap in use up to its last block: 352 bytes for its node and
      entry,
      40 for its data record and the two headers, and the buffer. */
  method FileTakes(fs: FileSystem, parent: nat, name: string, offset: nat, data: seq<byte>,
                   ghost p: Path, ghost room: nat, ghost rounded: nat)
    requires fs.Valid() && fs.Refers(parent, p) && parent != NULL && |name| <= NAME_MAX
    requires IsDir(fs.v.tree, p) && Find(fs.v.tree, p, name) == None && offset + |data| <= 0x8000_0000
    requires Bumped(fs.heap.blocks, room) && rounded + 400 < room && rounded % 8 == 0
    requires var end := offset + |data|; if end == 0 then rounded == 256 else end <= rounded < end + 8
    modifies fs, fs.heap, fs.heap.mem
    ensures fs.Valid() && Bumped(fs.heap.blocks, room - 392 - rounded)
    ensures In(p, name) in fs.v.tree
            && WroteTo(Link(old(fs.v).tree, p, name, File([])), In(p, name), offset, data, fs.v.tree)
  {
    hide Inv, Tiled, Bumped, Live, DataGrants, FileGrants;
    BumpedFile(fs.heap.blocks, room);
    var file := fs.CreateFile(parent, name, p);
    BumpedData(fs.heap.blocks, room - 352, offset + |data|, rounded);
    var n, ok := fs.Write(file, offset, data, In(p, name));
  }
}
