/**
 SkullFS: directory lists, parent pointers and growable file buffers, all
 allocated from and returned to the kernel heap.
 */
module SkullFs {
  import opened Machine
  import opened HeapModel
  import opened HeapRuns
  import opened Heap
  import opened FsTree
  import opened FsModel

  // ---- The heap under the records ------------------------------------------

  lemma GrantIsFresh(bs: seq<Block>, objs: Store, size: u32)
    requires Tiled(bs) && StoreOk(objs, Live(bs)) && size <= U32_LIMIT - 8
    ensures var g := Malloc(bs, RoundUp(size));
            && Tiled(g.blocks)
            && (g.ptr == NULL ==> g.blocks == bs)
            && (g.ptr != NULL ==> Fresh(objs, Live(g.blocks), g.ptr, size)
                                  && forall a :: a in Live(bs) ==>
                                       a in Live(g.blocks) && Live(g.blocks)[a] == Live(bs)[a])
  {
    RoundUpAligned(size);
    MallocTiles(bs, RoundUp(size), HEAP_START);
    MallocIsFirstFit(bs, RoundUp(size), HEAP_START);
    if Malloc(bs, RoundUp(size)).ptr != NULL {
      MallocLive(bs, RoundUp(size), HEAP_START);
    }
  }

  lemma DropKeepsStore(bs: seq<Block>, objs: Store, a: nat)
    requires Tiled(bs) && StoreOk(objs, Live(bs)) && a in objs
    ensures Tiled(Free(bs, a)) && StoreOk(objs - {a}, Live(Free(bs, a)))
  {
    FreeTiles(bs, a, HEAP_START);
    FreeLive(bs, a, HEAP_START);
  }

  lemma {:induction false} IndexIsFirst(names: seq<string>, x: string, i: nat)
    requires i < |names| && names[i] == x && x !in names[..i]
    ensures IndexOf(names, x) == i
  {
    if i > 0 {
      assert names[0] == names[..i][0];
      assert names[1..][..i - 1] == names[..i][1..];
      IndexIsFirst(names[1..], x, i - 1);
    }
  }

  /** The blocks a new file takes: its node and its entry. */
  datatype FileGrant = FileGrant(node: nat, entry: nat, blocks: seq<Block>)

  function FileGrants(bs: seq<Block>): Option<FileGrant> {
    var n := Malloc(bs, RoundUp(NODE_SIZE));
    var e := Malloc(n.blocks, RoundUp(ENTRY_SIZE));
    if n.ptr == NULL || e.ptr == NULL then None else Some(FileGrant(n.ptr, e.ptr, e.blocks))
  }

  /** A record just allocated and not yet linked. */
  lemma RecordMade(bs: seq<Block>, objs: Store, root: nat, v: View, o: Obj)
    requires Tiled(bs) && Inv(objs, Live(bs), root, v) && SizeOf(o) <= U32_LIMIT - 8
    requires Malloc(bs, RoundUp(SizeOf(o))).ptr != NULL
    ensures var g := Malloc(bs, RoundUp(SizeOf(o)));
            && Tiled(g.blocks) && g.ptr !in objs && g.ptr != NULL
            && Inv(objs[g.ptr := o], Live(g.blocks), root, v)
            && objs[g.ptr := o] - {g.ptr} == objs
  {
    hide Malloc, Live, StoreOk, Shape;
    var g := Malloc(bs, RoundUp(SizeOf(o)));
    GrantIsFresh(bs, objs, SizeOf(o));
    MallocLive(bs, RoundUp(SizeOf(o)), HEAP_START);
    ExtraRecord(objs, Live(bs), root, v, g.ptr, o, Live(g.blocks)[g.ptr]);
  }

  /** The bytes from `offset` on that a sequence has, at most `size` of them. */
  function Part(bytes: seq<byte>, offset: nat, size: nat): seq<byte> {
    if offset >= |bytes| then []
    else if offset + size > |bytes| then bytes[offset..] else bytes[offset..offset + size]
  }

  /** `data` are the bytes from `offset` on, `size` of them, or as many as there are. */
  predicate IsPart(bytes: seq<byte>, offset: nat, size: nat, data: seq<byte>) {
    && |data| == (if offset + size <= |bytes| then size else if offset <= |bytes| then |bytes| - offset else 0)
    && forall i :: 0 <= i < |data| ==> data[i] == bytes[offset + i]
  }

  lemma PartIsPart(bytes: seq<byte>, offset: nat, size: nat)
    ensures IsPart(bytes, offset, size, Part(bytes, offset, size))
  {
  }

  lemma NothingToRead(offset: nat, size: nat)
    ensures Part([], offset, size) == []
  {
  }

  lemma PartOfBuffer(buffer: seq<byte>, len: nat, offset: nat, size: nat)
    requires len <= |buffer|
    ensures Part(buffer[..len], offset, size) ==
            if offset >= len then [] else buffer[offset..offset + (if offset + size > len then len - offset else size)]
  {
  }

  /** Where the bytes of a file are. */
  lemma FileBytes(objs: Store, live: map<nat, nat>, root: nat, v: View, p: Path)
    requires Inv(objs, live, root, v) && p in v.tree && v.tree[p].File?
    ensures p in v.at && v.at[p] in objs && objs[v.at[p]].Node?
    ensures var fd := objs[v.at[p]].ptr;
            if fd == NULL then v.tree[p].bytes == []
            else
              && fd in objs && objs[fd].FileData? && objs[fd].data in objs && objs[objs[fd].data].Buffer?
              && objs[fd].size <= |objs[objs[fd].data].bytes|
              && v.tree[p].bytes == objs[objs[fd].data].bytes[..objs[fd].size]
  {
    ShapeAt(objs, root, v, p);
    hide Shape;
  }

  lemma LinkShape(objs: Store, root: nat, v: View, p: Path, x: string)
    requires LinkReady(objs, root, v, p, x)
    ensures Shape(objs, root, v) && p in v.chain && Distinct(v.tree[p].names) && x !in v.tree[p].names
  {
    assert NodeAt(objs, v, p);
  }

  lemma ShapeAt(objs: Store, root: nat, v: View, p: Path)
    requires Shape(objs, root, v) && p in v.tree
    ensures NodeAt(objs, v, p) && (IsDir(v.tree, p) ==> p in v.chain)
  {
  }

  /** A record that could not be linked goes back, and the heap with it. */
  lemma RecordUndone(bs: seq<Block>, size: u32)
    requires Tiled(bs) && Malloc(bs, RoundUp(size)).ptr != NULL
    ensures var g := Malloc(bs, RoundUp(size));
            Tiled(g.blocks) && Coarser(Free(g.blocks, g.ptr), bs)
  {
    RoundUpAligned(size);
    MallocTiles(bs, RoundUp(size), HEAP_START);
    FreeUndoesMalloc(bs, RoundUp(size), Malloc(bs, RoundUp(size)).blocks);
  }

  lemma FileMade(bs: seq<Block>, objs: Store, root: nat, v: View, p: Path, x: string, inode: u32)
    requires Tiled(bs) && StoreOk(objs, Live(bs)) && LinkReady(objs, root, v, p, x) && NodeAt(objs, v, p)
    requires FileGrants(bs).Some?
    ensures var g := FileGrants(bs).value;
            g.node !in objs &&
            Inv(FileStore(objs, StructOf(objs, v, p), x, inode, g.node, g.entry), Live(g.blocks), root,
                LinkView(v, p, x, File([]), g.node, NULL, g.entry))
  {
    hide Malloc, Live, Shape;
    var b := Malloc(bs, RoundUp(NODE_SIZE)).blocks;
    var g := FileGrants(bs).value;
    GrantIsFresh(bs, objs, NODE_SIZE);
    RoundUpAligned(ENTRY_SIZE);
    MallocTiles(b, RoundUp(ENTRY_SIZE), HEAP_START);
    MallocLive(b, RoundUp(ENTRY_SIZE), HEAP_START);
    FileLinked(objs, Live(bs), root, v, p, x, inode, g.node, g.entry, Live(g.blocks));
  }

  lemma FileRecordStays(bs: seq<Block>, objs: Store, v: View, p: Path, x: string, inode: u32)
    requires Tiled(bs) && StoreOk(objs, Live(bs)) && IsDir(v.tree, p) && NodeAt(objs, v, p) && FileGrants(bs).Some?
    ensures var g := FileGrants(bs).value;
            && g.node !in objs
            && var made := FileStore(objs, StructOf(objs, v, p), x, inode, g.node, g.entry);
               g.node in made && made[g.node] == EmptyFile(x, inode)
  {
    var b := Malloc(bs, RoundUp(NODE_SIZE)).blocks;
    GrantIsFresh(bs, objs, NODE_SIZE);
    MallocLive(bs, RoundUp(NODE_SIZE), HEAP_START);
    RoundUpAligned(NODE_SIZE);
    MallocTiles(bs, RoundUp(NODE_SIZE), HEAP_START);
    RoundUpAligned(ENTRY_SIZE);
    MallocLive(b, RoundUp(ENTRY_SIZE), HEAP_START);
  }

  /** Records, view and heap after an empty file was made. */
  ghost predicate FileCreated(objs: Store, v: View, bs: seq<Block>, inode: u32, p: Path, x: string,
                              objs': Store, v': View, bs': seq<Block>) {
    && FileGrants(bs).Some? && IsDir(v.tree, p) && p in v.chain
    && p in v.at && v.at[p] in objs && objs[v.at[p]].Node?
    && var (g, d) := (FileGrants(bs).value, StructOf(objs, v, p));
       && d in objs && objs[d].DirStruct? && g.node != d
       && bs' == g.blocks && v' == LinkView(v, p, x, File([]), g.node, NULL, g.entry)
       && objs' == FileStore(objs, d, x, inode, g.node, g.entry)
  }

  /** Records, view and heap after an empty directory was made. */
  ghost predicate DirCreated(objs: Store, v: View, bs: seq<Block>, inode: u32, p: Path, x: string,
                             objs': Store, v': View, bs': seq<Block>) {
    && DirGrants(bs).Some? && IsDir(v.tree, p) && p in v.chain
    && p in v.at && v.at[p] in objs && objs[v.at[p]].Node?
    && var (g, d) := (DirGrants(bs).value, StructOf(objs, v, p));
       && d in objs && objs[d].DirStruct? && g.node != d && g.struct != d
       && bs' == g.blocks && v' == LinkView(v, p, x, Dir([]), g.node, g.struct, g.entry)
       && objs' == DirStore(objs, d, x, inode, g.node, g.struct, v.at[p], g.entry)
  }

  /** The blocks a new directory takes: its node, its struct and its entry. */
  datatype DirGrant = DirGrant(node: nat, struct: nat, entry: nat, blocks: seq<Block>)

  function DirGrants(bs: seq<Block>): Option<DirGrant> {
    var n := Malloc(bs, RoundUp(NODE_SIZE));
    var d := Malloc(n.blocks, RoundUp(DIR_SIZE));
    var e := Malloc(d.blocks, RoundUp(ENTRY_SIZE));
    if n.ptr == NULL || d.ptr == NULL || e.ptr == NULL then None else Some(DirGrant(n.ptr, d.ptr, e.ptr, e.blocks))
  }

  lemma DirGranted(bs: seq<Block>, objs: Store)
    requires Tiled(bs) && StoreOk(objs, Live(bs)) && DirGrants(bs).Some?
    ensures var g := DirGrants(bs).value;
            && Fresh(objs, Live(g.blocks), g.node, NODE_SIZE) && Fresh(objs, Live(g.blocks), g.struct, DIR_SIZE)
            && Fresh(objs, Live(g.blocks), g.entry, ENTRY_SIZE)
            && g.node != g.struct && g.node != g.entry && g.struct != g.entry
            && forall a :: a in Live(bs) ==> a in Live(g.blocks) && Live(g.blocks)[a] == Live(bs)[a]
  {
    var n := Malloc(bs, RoundUp(NODE_SIZE)).blocks;
    var d := Malloc(n, RoundUp(DIR_SIZE)).blocks;
    GrantIsFresh(bs, objs, NODE_SIZE);
    RoundUpAligned(DIR_SIZE);
    MallocTiles(n, RoundUp(DIR_SIZE), HEAP_START);
    MallocLive(n, RoundUp(DIR_SIZE), HEAP_START);
    RoundUpAligned(ENTRY_SIZE);
    MallocTiles(d, RoundUp(ENTRY_SIZE), HEAP_START);
    MallocLive(d, RoundUp(ENTRY_SIZE), HEAP_START);
  }

  lemma DirMade(bs: seq<Block>, objs: Store, root: nat, v: View, p: Path, x: string, inode: u32)
    requires Tiled(bs) && StoreOk(objs, Live(bs)) && LinkReady(objs, root, v, p, x) && NodeAt(objs, v, p)
    requires DirGrants(bs).Some?
    ensures var g := DirGrants(bs).value;
            && g.node !in objs && g.struct !in objs
            && Inv(DirStore(objs, StructOf(objs, v, p), x, inode, g.node, g.struct, v.at[p], g.entry), Live(g.blocks),
                   root,
                   LinkView(v, p, x, Dir([]), g.node, g.struct, g.entry))
  {
    var g := DirGrants(bs).value;
    DirGranted(bs, objs);
    DirLinked(objs, Live(bs), root, v, p, x, inode, g.node, g.struct, g.entry, Live(g.blocks));
  }

  /** The two records of a directory that could not be linked go back in reverse order, and the heap with them. */
  lemma TwoRecordsUndone(bs: seq<Block>)
    requires Tiled(bs)
    requires Malloc(bs, RoundUp(NODE_SIZE)).ptr != NULL
    requires Malloc(Malloc(bs, RoundUp(NODE_SIZE)).blocks, RoundUp(DIR_SIZE)).ptr != NULL
    ensures var n := Malloc(bs, RoundUp(NODE_SIZE));
            var d := Malloc(n.blocks, RoundUp(DIR_SIZE));
            Coarser(Free(Free(d.blocks, d.ptr), n.ptr), bs)
  {
    var run := Alloc(NODE_SIZE, Alloc(DIR_SIZE, Done, Done), Done);
    NestedRunCoarsens(bs, run);
    var n := Malloc(bs, RoundUp(NODE_SIZE));
    assert Exec(n.blocks, Alloc(DIR_SIZE, Done, Done))
           == Free(Malloc(n.blocks, RoundUp(DIR_SIZE)).blocks, Malloc(n.blocks, RoundUp(DIR_SIZE)).ptr);
  }

  /** The store after one successful allocation. */
  lemma FreshStore(bs: seq<Block>, after: Store, before: Store, a: nat, o: Obj)
    requires Tiled(bs) && StoreOk(before, Live(bs)) && SizeOf(o) <= U32_LIMIT - 8
    requires Malloc(bs, RoundUp(SizeOf(o))).ptr == a != NULL && after == before[a := o]
    ensures a !in before && StoreOk(after, Live(Malloc(bs, RoundUp(SizeOf(o))).blocks)) && after - {a} == before
  {
    GrantIsFresh(bs, before, SizeOf(o));
  }

  /** Two records just allocated and not yet linked. */
  lemma DirRecordsMade(bs: seq<Block>, objs: Store, root: nat, v: View, p: Path, n: Grant, g: Grant, o: Obj, d: Obj,
                       made: Store)
    requires Tiled(bs) && Inv(objs, Live(bs), root, v) && p in v.tree && o.Node? && d.DirStruct?
    requires n == Malloc(bs, RoundUp(NODE_SIZE)) && g == Malloc(n.blocks, RoundUp(DIR_SIZE)) && n.ptr != NULL
             && g.ptr != NULL
    requires made == objs[n.ptr := o][g.ptr := d]
    ensures n.ptr !in objs && g.ptr !in objs && n.ptr != g.ptr
    ensures StoreOk(made, Live(g.blocks)) && NodeAt(made, v, p)
  {
    hide Tiled, Malloc, Live, NodeAt, StoreOk;
    RecordMade(bs, objs, root, v, o);
    RecordMade(n.blocks, objs[n.ptr := o], root, v, d);
  }

  /** Frees the blocks in order. */
  function FreeAll(bs: seq<Block>, ptrs: seq<nat>): seq<Block> {
    if ptrs == [] then bs else Free(FreeAll(bs, ptrs[..|ptrs| - 1]), ptrs[|ptrs| - 1])
  }

  lemma FreeAllTwo(bs: seq<Block>, a: nat, b: nat)
    ensures FreeAll(bs, [a, b]) == Free(Free(bs, a), b)
  {
    hide Free;
    FreeAllMore(bs, [], a);
    FreeAllMore(bs, [a], b);
    assert [] + [a] == [a] && [a] + [b] == [a, b];
  }

  lemma FreeAllMore(bs: seq<Block>, ptrs: seq<nat>, a: nat)
    ensures FreeAll(bs, ptrs + [a]) == Free(FreeAll(bs, ptrs), a)
  {
    assert (ptrs + [a])[..|ptrs|] == ptrs;
  }

  /** What a successful delete of entry `x` in directory `p` does to the view and to the heap. */
  ghost predicate Removed(objs: Store, v: View, p: Path, x: string, bs: seq<Block>, objs': Store, after: View,
                          bs': seq<Block>) {
    && IsDir(v.tree, p) && x in v.tree[p].names && p in v.chain && |v.chain[p]| == |v.tree[p].names|
    && In(p, x) in v.tree && In(p, x) in v.at && v.at[In(p, x)] in objs && objs[v.at[In(p, x)]].Node?
    && (In(p, x) in v.chain || v.tree[In(p, x)].File?)
    && after == UnlinkView(v, p, x)
    && bs' == FreeAll(bs, Freed(objs, v, p, IndexOf(v.tree[p].names, x)))
    && CanGo(objs, v, p, x) && objs' == AfterDelete(objs, v, p, x)
  }

  /** The entry `x` of directory `p`, its node and what is behind it can be freed in this order. */
  ghost predicate CanGo(objs: Store, v: View, p: Path, x: string) {
    && IsDir(v.tree, p) && NodeAt(objs, v, p) && x in v.tree[p].names && Distinct(v.tree[p].names)
    && var c := In(p, x);
       && c in v.tree && NodeAt(objs, v, c) && (v.tree[c].Dir? ==> Distinct(v.tree[c].names))
       && v.at[c] !in Behind(objs, v, c)
       && var (freed, i, d, chain) := (Without(objs, Behind(objs, v, c)), IndexOf(v.tree[p].names, x),
                                       StructOf(objs, v, p), v.chain[p]);
          && NodeAt(freed, v, p) && StructOf(freed, v, p) == d
          && d in freed && freed[d].DirStruct? && freed[d].numEntries > 0
          && chain[i] in freed && freed[chain[i]].Entry? && chain[i] != d && chain[i] != v.at[c]
          && (i > 0 ==> chain[i - 1] in freed && freed[chain[i - 1]].Entry? && chain[i - 1] != d)
  }

  ghost function AfterDelete(objs: Store, v: View, p: Path, x: string): Store
    requires CanGo(objs, v, p, x)
  {
    var c := In(p, x);
    CutEntry(Without(objs, Behind(objs, v, c)), StructOf(objs, v, p), v.chain[p],
             IndexOf(v.tree[p].names, x)) - {v.at[c]}
  }

  lemma ContentCanGo(objs: Store, root: nat, v: View, p: Path, x: string)
    requires Shape(objs, root, v) && IsDir(v.tree, p) && NodeAt(objs, v, p) && x in v.tree[p].names
    ensures CanGo(objs, v, p, x)
  {
    hide FileAt;
    var c := In(p, x);
    assert NamesOk(v.tree[p].names) && NodeAt(objs, v, c) && (v.tree[c].Dir? ==> NamesOk(v.tree[c].names));
    BehindElsewhere(objs, v, c, p);
    BehindKeepsNode(objs, v, c, p);
    BehindKeepsNode(objs, v, c, c);
    var freed := Without(objs, Behind(objs, v, c));
    EntryCanGo(freed, v, p, IndexOf(v.tree[p].names, x));
    assert EntryAt(freed, v, p, v.tree[p].names, IndexOf(v.tree[p].names, x));
  }

  lemma DeleteDone(objs: Store, root: nat, v: View, p: Path, x: string)
    requires Shape(objs, root, v) && CanGo(objs, v, p, x)
    ensures Shape(AfterDelete(objs, v, p, x), root, UnlinkView(v, p, x))
  {
    DeleteUnlinks(objs, v, p, IndexOf(v.tree[p].names, x), Without(objs, Behind(objs, v, In(p, x))));
    UnlinkShape(objs, root, v, p, x, AfterDelete(objs, v, p, x));
  }

  lemma FreeAllThenTwo(bs: seq<Block>, ptrs: seq<nat>, a: nat, b: nat)
    ensures FreeAll(bs, ptrs + [a, b]) == Free(Free(FreeAll(bs, ptrs), a), b)
  {
    hide Free, FreeAll;
    FreeAllMore(bs, ptrs, a);
    FreeAllMore(bs, ptrs + [a], b);
    assert ptrs + [a] + [b] == ptrs + [a, b];
  }

  // ---- File data ----------------------------------------------------------

  function FirstCapacity(initialSize: nat): nat {
    if initialSize > 0 then initialSize else 256
  }

  /** The blocks the first write to a file takes. */
  datatype DataGrant = DataGrant(fd: nat, data: nat, blocks: seq<Block>)

  function DataGrants(bs: seq<Block>, capacity: nat): Option<DataGrant>
    requires capacity < U32_LIMIT
  {
    var f := Malloc(bs, RoundUp(DATA_SIZE));
    var d := Malloc(f.blocks, RoundUp(capacity));
    if f.ptr == NULL || d.ptr == NULL then None else Some(DataGrant(f.ptr, d.ptr, d.blocks))
  }

  lemma DataGranted(bs: seq<Block>, objs: Store, capacity: nat)
    requires Tiled(bs) && StoreOk(objs, Live(bs)) && capacity <= U32_LIMIT - 8 && DataGrants(bs, capacity).Some?
    ensures var g := DataGrants(bs, capacity).value;
            && Fresh(objs, Live(g.blocks), g.fd, DATA_SIZE) && Fresh(objs, Live(g.blocks), g.data, capacity)
                && g.fd != g.data
            && forall a :: a in Live(bs) ==> a in Live(g.blocks) && Live(g.blocks)[a] == Live(bs)[a]
  {
    var f := Malloc(bs, RoundUp(DATA_SIZE)).blocks;
    GrantIsFresh(bs, objs, DATA_SIZE);
    RoundUpAligned(capacity);
    MallocTiles(f, RoundUp(capacity), HEAP_START);
    MallocLive(f, RoundUp(capacity), HEAP_START);
  }

  /** The records of an empty file's data; `junk` is what its buffer happens to hold. */
  function DataStore(objs: Store, fd: nat, data: nat, junk: seq<byte>): Store {
    objs[fd := FileData(data, 0, |junk|, |junk|, 0)][data := Buffer(junk)]
  }

  /** The records after the node `n` got its first data record. */
  function FirstStore(objs: Store, n: nat, fd: nat, data: nat, junk: seq<byte>): Store
    requires n in objs && objs[n].Node? && n != fd && n != data
  {
    DataStore(objs, fd, data, junk)[n := objs[n].(ptr := fd)]
  }

  lemma FirstShape(objs: Store, root: nat, v: View, p: Path, fd: nat, data: nat, junk: seq<byte>)
    requires Shape(objs, root, v) && p in v.tree && v.tree[p].File? && NodeAt(objs, v, p)
    requires objs[v.at[p]].ptr == NULL && fd != data && 0 < |junk|
    requires fd !in objs && data !in objs && fd != NULL && data != NULL
    ensures Shape(FirstStore(objs, v.at[p], fd, data, junk), root, FileView(v, p, [], fd, data))
  {
    hide Shape, EntryAt, DirAt, OnlyFile;
    FileHolds(objs, root, v, p, FirstStore(objs, v.at[p], fd, data, junk), fd, []);
  }

  lemma FirstStoreOk(objs: Store, live: map<nat, nat>, n: nat, fd: nat, data: nat, junk: seq<byte>, live': map<nat,
                     nat>)
    requires StoreOk(objs, live) && n in objs && objs[n].Node? && fd != data
    requires Fresh(objs, live', fd, DATA_SIZE) && Fresh(objs, live', data, |junk|)
    requires forall a :: a in live ==> a in live' && live'[a] == live[a]
    ensures StoreOk(FirstStore(objs, n, fd, data, junk), live')
  {
    StoreGrows(objs, live, FirstStore(objs, n, fd, data, junk), live');
  }

  /** A file without data gets an empty buffer; its content is still the empty sequence. */
  lemma FirstDataHeld(bs: seq<Block>, objs: Store, root: nat, v: View, p: Path, junk: seq<byte>)
    requires Tiled(bs) && Inv(objs, Live(bs), root, v) && p in v.tree && v.tree[p].File? && p in v.at && v.at[p] in objs
    requires objs[v.at[p]].Node? && objs[v.at[p]].ptr == NULL && 0 < |junk| <= U32_LIMIT - 8
             && DataGrants(bs, |junk|).Some?
    ensures var g := DataGrants(bs, |junk|).value;
            && v.at[p] != g.fd && v.at[p] != g.data && g.fd != g.data
            && Inv(FirstStore(objs, v.at[p], g.fd, g.data, junk), Live(g.blocks), root,
                   FileView(v, p, [], g.fd, g.data))
  {
    var g := DataGrants(bs, |junk|).value;
    assert NodeAt(objs, v, p);
    DataGranted(bs, objs, |junk|);
    FirstShape(objs, root, v, p, g.fd, g.data, junk);
    FirstStoreOk(objs, Live(bs), v.at[p], g.fd, g.data, junk, Live(g.blocks));
  }

  // ---- Growing a file -----------------------------------------------------

  /** The data record `fd` with its buffer. */
  predicate DataOk(objs: Store, fd: nat) {
    && fd in objs && objs[fd].FileData? && objs[fd].data in objs && objs[objs[fd].data].Buffer?
    && objs[fd].size <= objs[fd].capacity == |objs[objs[fd].data].bytes| && 0 < objs[fd].capacity
    && Paid(objs[fd])
  }

  function Bytes(objs: Store, fd: nat): seq<byte>
    requires DataOk(objs, fd)
  {
    objs[objs[fd].data].bytes[..objs[fd].size]
  }

  lemma CapacityFits(bs: seq<Block>, objs: Store, fd: nat)
    requires Tiled(bs) && StoreOk(objs, Live(bs)) && DataOk(objs, fd)
    ensures objs[fd].capacity <= HEAP_SIZE
  {
    var b := LiveIsBlock(bs, HEAP_START, objs[fd].data);
    TilingBounds(bs, HEAP_START, b);
  }

  /** What the allocator answers to the request for a larger buffer. */
  function LargerBuffer(bs: seq<Block>, capacity: nat, end: nat): Grant
    requires 0 < capacity && Grown(capacity, end) < U32_LIMIT
  {
    Malloc(bs, RoundUp(Grown(capacity, end)))
  }

  /** Whether a resize to `end` bytes finds the memory it needs. */
  predicate ResizeFits(bs: seq<Block>, capacity: nat, end: nat)
    requires 0 < capacity
  {
    end <= capacity || (Grown(capacity, end) < U32_LIMIT && LargerBuffer(bs, capacity, end).ptr != NULL)
  }

  function ResizedHeap(bs: seq<Block>, capacity: nat, end: nat, data: nat): seq<Block>
    requires 0 < capacity && ResizeFits(bs, capacity, end)
  {
    if end <= capacity then bs else Free(LargerBuffer(bs, capacity, end).blocks, data)
  }

  /** Where the bytes are after a resize to `end` bytes that found its memory. */
  function BufferAfter(bs: seq<Block>, capacity: nat, end: nat, data: nat): nat
    requires 0 < capacity && ResizeFits(bs, capacity, end)
  {
    if end <= capacity then data else LargerBuffer(bs, capacity, end).ptr
  }

  /** Outside `mine` both stores have the same records. */
  ghost predicate SameBut(objs: Store, objs': Store, mine: set<nat>) {
    forall a :: a !in mine ==> (a in objs <==> a in objs') && (a in objs ==> objs'[a] == objs[a])
  }

  /** The records after a resize: the same data record with room for `end` bytes, in its old buffer or in a
      fresh one. */
  ghost predicate ResizedTo(before: Store, fd: nat, end: nat, after: Store)
    requires DataOk(before, fd)
  {
    && DataOk(after, fd) && after[fd].size == before[fd].size && Bytes(after, fd) == Bytes(before, fd)
    && after[fd].capacity == Grown(before[fd].capacity, end) && after[fd].first == before[fd].first
    && after[fd].copied == before[fd].copied + (if end <= before[fd].capacity then 0 else before[fd].size)
    && (end <= before[fd].capacity ==> after == before)
    && (end > before[fd].capacity ==> after[fd].data !in before && before[fd].data !in after)
    && SameBut(before, after, {fd, before[fd].data, after[fd].data})
  }

  /** The records after the bytes moved from a buffer that was too small into a fresh one. */
  function MovedStore(objs: Store, fd: nat, newData: nat, copied: seq<byte>): Store
    requires fd in objs && objs[fd].FileData?
  {
    var o := objs[fd];
    (objs[newData := Buffer(copied)] - {o.data})[fd := o.(data := newData, capacity := |copied|,
                                                          copied := o.copied + o.size)]
  }

  lemma ResizeInPlace(objs: Store, fd: nat, end: nat)
    requires DataOk(objs, fd) && end <= objs[fd].capacity
    ensures ResizedTo(objs, fd, end, objs)
  {
  }

  lemma MovedIsResized(objs: Store, fd: nat, end: nat, newData: nat, copied: seq<byte>)
    requires DataOk(objs, fd) && end > objs[fd].capacity && newData !in objs
             && |copied| == Grown(objs[fd].capacity, end)
    requires copied[..objs[fd].size] == objs[objs[fd].data].bytes[..objs[fd].size]
    ensures ResizedTo(objs, fd, end, MovedStore(objs, fd, newData, copied))
  {
  }

  /** The last stores of a write. */
  function WrittenStore(objs: Store, n: nat, fd: nat, offset: nat, data: seq<byte>): Store
    requires DataOk(objs, fd) && offset + |data| <= objs[fd].capacity && n in objs && objs[n].Node?
  {
    var end := offset + |data|;
    var sized := if end > objs[fd].size then objs[fd := objs[fd].(size := end)][n := objs[n].(length := end)] else objs;
    sized[objs[fd].data := Buffer(Splice(objs[objs[fd].data].bytes, offset, data))]
  }

  lemma WrittenKeeps(objs: Store, n: nat, fd: nat, offset: nat, data: seq<byte>)
    requires DataOk(objs, fd) && offset + |data| <= objs[fd].capacity && n in objs && objs[n].Node?
    ensures var after := WrittenStore(objs, n, fd, offset, data);
            && DataOk(after, fd) && after[fd].data == objs[fd].data && after[fd].capacity == objs[fd].capacity
            && after[fd].first == objs[fd].first && after[fd].copied == objs[fd].copied
            && after[fd].size == (if offset + |data| > objs[fd].size then offset + |data| else objs[fd].size)
            && after.Keys == objs.Keys && Written(Bytes(objs, fd), offset, data, Bytes(after, fd))
  {
    SpliceWrites(Bytes(objs, fd), objs[objs[fd].data].bytes, offset, data);
  }

  lemma WriteStoreOk(objs: Store, live: map<nat, nat>, n: nat, fd: nat, offset: nat, data: seq<byte>)
    requires StoreOk(objs, live) && DataOk(objs, fd) && offset + |data| <= objs[fd].capacity && n in objs
             && objs[n].Node?
    ensures StoreOk(WrittenStore(objs, n, fd, offset, data), live)
  {
    StoreGrows(objs, live, WrittenStore(objs, n, fd, offset, data), live);
  }

  /** File `p` has the data record `fd`. */
  ghost predicate HasData(objs: Store, v: View, p: Path, fd: nat) {
    && p in v.tree && v.tree[p].File? && p in v.at && v.at[p] in objs && objs[v.at[p]].Node?
    && objs[v.at[p]].ptr == fd && fd != NULL && DataOk(objs, fd)
  }

  lemma FileRecord(objs: Store, live: map<nat, nat>, root: nat, v: View, p: Path)
    requires Inv(objs, live, root, v) && p in v.tree && v.tree[p].File?
    ensures p in v.at && v.at[p] in objs && objs[v.at[p]].Node?
    ensures objs[v.at[p]].ptr == NULL ==> v.tree[p].bytes == []
    ensures objs[v.at[p]].ptr != NULL ==> HasData(objs, v, p, objs[v.at[p]].ptr) && DataOk(objs, objs[v.at[p]].ptr)
  {
    ShapeAt(objs, root, v, p);
    hide Shape;
  }

  /** Resizing for a write and then recording its size is one step of the meter. */
  lemma MeterMoves(was: Obj, end: nat)
    requires was.FileData? && was.size <= was.capacity && 0 < was.capacity
    ensures AfterWrite(Meter(was), end) ==
            Growth(if end > was.size then end else was.size, Grown(was.capacity, end),
                   was.copied + if end <= was.capacity then 0 else was.size)
  {
  }

  /** A write that found its memory leaves the records of the tree with the new bytes. */
  lemma WriteDone(before: Store, root: nat, v: View, p: Path, fd: nat, offset: nat, data: seq<byte>, resized: Store,
                  after: Store)
    requires Shape(before, root, v) && HasData(before, v, p, fd)
    requires ResizedTo(before, fd, offset + |data|, resized) && v.at[p] in resized && resized[v.at[p]].Node?
    requires after == WrittenStore(resized, v.at[p], fd, offset, data)
    ensures DataOk(after, fd) && Shape(after, root, FileView(v, p, Bytes(after, fd), fd, after[fd].data))
    ensures Written(v.tree[p].bytes, offset, data, Bytes(after, fd))
    ensures after[fd].data == resized[fd].data && after[fd].first == before[fd].first
    ensures offset + |data| > before[fd].capacity ==> before[fd].data !in after
    ensures Meter(after[fd]) == AfterWrite(Meter(before[fd]), offset + |data|)
    ensures v.at[p] in after && after[v.at[p]] == before[v.at[p]].(length := after[fd].size)
    ensures SameBut(before, after, {v.at[p], fd, before[fd].data, after[fd].data})
  {
    hide Shape;
    ShapeAt(before, root, v, p);
    WrittenKeeps(resized, v.at[p], fd, offset, data);
    MeterMoves(before[fd], offset + |data|);
    assert Holds(after, v, p, fd, Bytes(after, fd));
    FileHolds(before, root, v, p, after, fd, Bytes(after, fd));
  }

  /** Whether a write up to `end` finds the memory it needs. */
  predicate WriteFits(objs: Store, node: nat, end: nat, bs: seq<Block>) {
    && node in objs && objs[node].Node? && FirstCapacity(end) < U32_LIMIT
    && if objs[node].ptr == NULL then DataGrants(bs, FirstCapacity(end)).Some?
       else DataOk(objs, objs[node].ptr) && ResizeFits(bs, objs[objs[node].ptr].capacity, end)
  }

  /** The heap after such a write. */
  function WriteHeap(objs: Store, node: nat, end: nat, bs: seq<Block>): seq<Block>
    requires WriteFits(objs, node, end, bs)
  {
    var fd := objs[node].ptr;
    if fd == NULL then DataGrants(bs, FirstCapacity(end)).value.blocks
    else ResizedHeap(bs, objs[fd].capacity, end, objs[fd].data)
  }

  /** In the view only the bytes of file `p` changed, as a write of `data` at `offset` changes them. */
  ghost predicate FileChanged(v: View, p: Path, offset: nat, data: seq<byte>, after: View) {
    && p in v.tree && v.tree[p].File? && p in after.tree && after.tree[p].File?
    && after.tree == v.tree[p := after.tree[p]] && after.at == v.at && after.chain == v.chain
    && Written(v.tree[p].bytes, offset, data, after.tree[p].bytes)
  }

  lemma RewrittenView(v: View, p: Path, w: View, after: View)
    requires p in v.tree && p in after.tree
    requires w.tree == v.tree[p := File([])] && after.tree == w.tree[p := after.tree[p]]
    ensures after.tree == v.tree[p := after.tree[p]]
  {
  }

  /** Records, heap and view after a successful write to file `p` with the data record `fd`. */
  ghost predicate DataWritten(objs: Store, bs: seq<Block>, v: View, p: Path, fd: nat, offset: nat, data: seq<byte>,
                              objs': Store, bs': seq<Block>, v': View) {
    var end := offset + |data|;
    && p in v.tree && v.tree[p].File? && DataOk(objs, fd) && DataOk(objs', fd) && ResizeFits(bs, objs[fd].capacity, end)
    && v' == FileView(v, p, Bytes(objs', fd), fd, objs'[fd].data)
    && Written(v.tree[p].bytes, offset, data, Bytes(objs', fd))
    && bs' == ResizedHeap(bs, objs[fd].capacity, end, objs[fd].data)
    && objs'[fd].first == objs[fd].first && Meter(objs'[fd]) == AfterWrite(Meter(objs[fd]), end)
    && objs'[fd].data == BufferAfter(bs, objs[fd].capacity, end, objs[fd].data)
    && (end > objs[fd].capacity ==> objs[fd].data !in objs')
    && p in v.at && v.at[p] in objs && objs[v.at[p]].Node? && objs[v.at[p]].ptr == fd && v.at[p] in objs'
    && objs'[v.at[p]] == objs[v.at[p]].(length := objs'[fd].size)
    && SameBut(objs, objs', {v.at[p], fd, objs[fd].data, objs'[fd].data})
  }

  /** Where a file keeps its data after a write up to `end`: where it did, if that was large enough. */
  ghost predicate DataStays(objs: Store, bs: seq<Block>, node: nat, end: nat, after: Store)
    requires WriteFits(objs, node, end, bs)
  {
    && node in after && after[node].Node? && DataOk(after, after[node].ptr)
    && var (fd, o) := (after[node].ptr, after[after[node].ptr]);
       && after[node] == objs[node].(ptr := fd, length := o.size) &&
       if objs[node].ptr == NULL then
         var g := DataGrants(bs, FirstCapacity(end)).value;
         && SameBut(objs, after, {node, g.fd, g.data})
         && fd == g.fd && o.data == g.data && o.first == FirstCapacity(end)
             && Meter(o) == AfterWrite(Growth(0, o.first, 0), end)
       else
         var was := objs[objs[node].ptr];
         && SameBut(objs, after, {node, fd, was.data, o.data})
         && fd == objs[node].ptr && o.first == was.first && Meter(o) == AfterWrite(Meter(was), end)
         && o.data == BufferAfter(bs, was.capacity, end, was.data) && (end > was.capacity ==> was.data !in after)
  }

  // ---- Inode numbers --------------------------------------------------------

  /** The counter after a node was asked for on the heap `bs`: it moves exactly if the node's block was there. */
  function InodeAfter(bs: seq<Block>, inode: u32): u32 {
    if Malloc(bs, RoundUp(NODE_SIZE)).ptr == NULL then inode else if inode + 1 == U32_LIMIT then 0 else inode + 1
  }

  // ---- States ---------------------------------------------------------------

  /** All that an operation can depend on: the records, the tree they represent, the heap, and the next inode number. */
  datatype Snapshot = Snapshot(objs: Store, v: View, blocks: seq<Block>, inode: u32)

  ghost function Now(fs: FileSystem): Snapshot
    reads fs, fs.heap
  {
    Snapshot(fs.objs, fs.v, fs.heap.blocks, fs.nextInode)
  }

  /** The records represent the tree under `root`, each in a live block of its own. */
  ghost predicate Sound(s: Snapshot, root: nat) {
    Tiled(s.blocks) && Inv(s.objs, Live(s.blocks), root, s.v)
  }

  /** Nothing a path can reach changed, and the heap is the old one up to merging. */
  ghost predicate Unchanged(s: Snapshot, after: Snapshot) {
    after.objs == s.objs && after.v == s.v && Coarser(after.blocks, s.blocks)
  }

  // ---- Listing and mounting ------------------------------------------------

  datatype Dirent = Dirent(name: string, ino: u32)

  /** Tree, heap and records after a successful write: only the bytes of the file changed, in the memory the write asked
      for. */
  ghost predicate Wrote(objs: Store, bs: seq<Block>, v: View, node: nat, p: Path, offset: nat, data: seq<byte>,
                        objs': Store, bs': seq<Block>, v': View) {
    var end := offset + |data|;
    && WriteFits(objs, node, end, bs)
    && FileChanged(v, p, offset, data, v')
    && bs' == WriteHeap(objs, node, end, bs)
    && DataStays(objs, bs, node, end, objs')
  }

  /** Records, heap and view after a file without data got its data record, which is still empty. */
  ghost predicate DataAttached(objs: Store, bs: seq<Block>, v: View, p: Path, fd: nat, capacity: nat,
                               objs': Store, bs': seq<Block>, v': View) {
    && p in v.tree && v.tree[p] == File([]) && p in v.at && v.at[p] in objs && objs[v.at[p]].Node?
        && objs[v.at[p]].ptr == NULL
    && capacity < U32_LIMIT && DataGrants(bs, capacity).Some?
    && var g := DataGrants(bs, capacity).value;
       && fd == g.fd && bs' == g.blocks && v' == FileView(v, p, [], g.fd, g.data)
       && HasData(objs', v', p, fd) && objs'[fd].data == g.data && objs'[fd].first == capacity
       && Meter(objs'[fd]) == Growth(0, capacity, 0) && objs'[v.at[p]] == objs[v.at[p]].(ptr := g.fd)
       && SameBut(objs, objs', {v.at[p], g.fd, g.data})
  }

  lemma FirstStoreAttaches(objs: Store, bs: seq<Block>, v: View, p: Path, junk: seq<byte>)
    requires p in v.tree && v.tree[p] == File([]) && p in v.at && v.at[p] in objs && objs[v.at[p]].Node?
             && objs[v.at[p]].ptr == NULL
    requires 0 < |junk| < U32_LIMIT && DataGrants(bs, |junk|).Some?
    requires var g := DataGrants(bs, |junk|).value; v.at[p] != g.fd && v.at[p] != g.data && g.fd != g.data
    ensures var g := DataGrants(bs, |junk|).value;
            DataAttached(objs, bs, v, p, g.fd, |junk|, FirstStore(objs, v.at[p], g.fd, g.data, junk), g.blocks,
                         FileView(v, p, [], g.fd, g.data))
  {
    hide Malloc;
  }

  lemma AttachedHasData(objs: Store, bs: seq<Block>, v: View, p: Path, fd: nat, end: nat, objs': Store,
                        bs': seq<Block>, v': View)
    requires DataAttached(objs, bs, v, p, fd, FirstCapacity(end), objs', bs', v')
    ensures HasData(objs', v', p, fd) && 0 < objs'[fd].capacity && ResizeFits(bs', objs'[fd].capacity, end)
    ensures DataGrants(bs, FirstCapacity(end)).Some? && p in v'.at && p in v'.tree && v'.at == v.at
  {
    hide DataGrants;
  }

  lemma AttachedThenWritten(objs: Store, bs: seq<Block>, v: View, p: Path, fd: nat, offset: nat, data: seq<byte>,
                            mid: Store, bs': seq<Block>, w: View, after: Store, bs'': seq<Block>, v': View)
    requires offset + |data| <= 0x8000_0000
    requires DataAttached(objs, bs, v, p, fd, FirstCapacity(offset + |data|), mid, bs', w)
    requires DataWritten(mid, bs', w, p, fd, offset, data, after, bs'', v')
    ensures Wrote(objs, bs, v, v.at[p], p, offset, data, after, bs'', v')
  {
    hide DataGrants, Written;
    RewrittenView(v, p, w, v');
  }

  lemma LaterWrote(objs: Store, bs: seq<Block>, v: View, node: nat, p: Path, offset: nat, data: seq<byte>,
                   objs': Store, bs': seq<Block>, v': View)
    requires offset + |data| <= 0x8000_0000 && node in objs && objs[node].Node? && objs[node].ptr != NULL
    requires p in v.at && v.at[p] == node && DataWritten(objs, bs, v, p, objs[node].ptr, offset, data, objs', bs', v')
    ensures Wrote(objs, bs, v, node, p, offset, data, objs', bs', v')
  {
  }

  /** The names a directory lists. */
  function Listing(t: Tree, p: Path): seq<string>
    requires IsDir(t, p)
  {
    [DOT, DOTDOT] + t[p].names
  }

  /** A root with empty directories, newest first. */
  function Directories(names: seq<string>): (t: Tree)
    ensures IsDir(t, Root) && t[Root].names == names
    ensures forall p :: p in t <==> p == Root || (p.In? && p.dir == Root && p.name in names)
  {
    if names == [] then map[Root := Dir([])]
    else Link(Directories(names[1..]), Root, names[0], Dir([]))
  }

  lemma RootMade(bs: seq<Block>, node: nat, struct: nat, inode: u32)
    requires Tiled(bs)
    requires node == Malloc(bs, RoundUp(NODE_SIZE)).ptr != NULL
    requires struct == Malloc(Malloc(bs, RoundUp(NODE_SIZE)).blocks, RoundUp(DIR_SIZE)).ptr != NULL
    ensures var objs := map[node := EmptyDir("/", inode, struct), struct := DirStruct(NULL, 0, NULL)];
            var v := View(map[Root := Dir([])], map[Root := node], map[Root := []],
                          map[node := NodeOf(Root), struct := DirOf(Root)]);
            node != struct && Inv(objs, Live(Malloc(Malloc(bs, RoundUp(NODE_SIZE)).blocks, RoundUp(DIR_SIZE)).blocks),
                                  node, v)
  {
    hide Malloc, Live;
    var n := Malloc(bs, RoundUp(NODE_SIZE));
    var none: Store := map[];
    GrantIsFresh(bs, none, NODE_SIZE);
    GrantIsFresh(n.blocks, none[node := EmptyDir("/", inode, struct)], DIR_SIZE);
    var objs := map[node := EmptyDir("/", inode, struct), struct := DirStruct(NULL, 0, NULL)];
    var v := View(map[Root := Dir([])], map[Root := node], map[Root := []],
                  map[node := NodeOf(Root), struct := DirOf(Root)]);
    assert NodeAt(objs, v, Root);
  }

  /** The heap after the root's node and struct were granted. */
  function RootGrants(bs: seq<Block>): Option<seq<Block>> {
    var n := Malloc(bs, RoundUp(NODE_SIZE));
    var d := Malloc(n.blocks, RoundUp(DIR_SIZE));
    if n.ptr == NULL || d.ptr == NULL then None else Some(d.blocks)
  }

  /** The state with nothing but a root directory, made on the heap `bs`. */
  ghost predicate RootOnly(bs: seq<Block>, inode: u32, root: nat, s: Snapshot) {
    var n := Malloc(bs, RoundUp(NODE_SIZE));
    var d := Malloc(n.blocks, RoundUp(DIR_SIZE));
    && n.ptr != NULL && d.ptr != NULL && n.ptr != d.ptr && root == n.ptr && s.blocks == d.blocks
        && s.inode == InodeAfter(bs, inode)
    && s.objs == map[n.ptr := EmptyDir("/", inode, d.ptr), d.ptr := DirStruct(NULL, 0, NULL)]
    && s.v == View(map[Root := Dir([])], map[Root := n.ptr], map[Root := []],
                   map[n.ptr := NodeOf(Root), d.ptr := DirOf(Root)])
  }

  /** The default directories, in the order in which they are made. */
  const DEFAULTS: seq<string> := ["dev", "proc", "tmp"]

  /** Those whose memory was there, newest first; `states[i]` is the state before `names[i]`. */
  function DefaultsMade(states: seq<Snapshot>, names: seq<string>): seq<string>
    requires |names| <= |states|
  {
    if names == [] then []
    else
      var i := |names| - 1;
      (if DirGrants(states[i].blocks).Some? then [names[i]] else []) + DefaultsMade(states, names[..i])
  }

  /** The state after trying to make a directory in the root. */
  ghost predicate DefaultTried(s: Snapshot, name: string, after: Snapshot) {
    && after.inode == InodeAfter(s.blocks, s.inode)
    && if DirGrants(s.blocks).Some?
        then DirCreated(s.objs, s.v, s.blocks, s.inode, Root, name, after.objs, after.v, after.blocks)
       else Unchanged(s, after)
  }

  /** A mount from the heap `bs` on: first the root, then each default directory. */
  ghost predicate Mounting(bs: seq<Block>, inode: u32, root: nat, states: seq<Snapshot>) {
    && |states| == 4 && RootOnly(bs, inode, root, states[0])
    && DefaultTried(states[0], "dev", states[1]) && DefaultTried(states[1], "proc", states[2])
        && DefaultTried(states[2], "tmp", states[3])
    && forall s :: s in states ==> Sound(s, root)
  }

  lemma ThreeDefaults(states: seq<Snapshot>)
    requires |states| == 4
    ensures DefaultsMade(states, DEFAULTS) ==
            (if DirGrants(states[2].blocks).Some? then ["tmp"] else [])
            + ((if DirGrants(states[1].blocks).Some? then ["proc"]
                else []) + ((if DirGrants(states[0].blocks).Some? then ["dev"] else []) + []))
  {
    hide DirGrants;
    assert DEFAULTS[..2][..1] == DEFAULTS[..1] && DEFAULTS[..1][..0] == [];
    assert DefaultsMade(states, DEFAULTS[..1]) == (if DirGrants(states[0].blocks).Some? then ["dev"] else []) + [];
    assert DefaultsMade(states, DEFAULTS[..2])
        == (if DirGrants(states[1].blocks).Some? then ["proc"] else []) + DefaultsMade(states, DEFAULTS[..1]);
  }

  lemma RootIsEmpty(bs: seq<Block>, inode: u32, root: nat, s: Snapshot)
    requires RootOnly(bs, inode, root, s)
    ensures s.v.tree == Directories([])
  {
    hide Malloc;
  }

  /** On a heap in use from its start, a directory costs 380 bytes at its end, and its entry is cut off right behind its
      struct. */
  lemma BumpedDir(bs: seq<Block>, room: nat)
    requires Tiled(bs) && Bumped(bs, room) && room > 400
    ensures DirGrants(bs).Some?
    ensures var (g, end) := (DirGrants(bs).value, bs[|bs| - 1].addr);
            && g.node == end + 12 && g.struct == end + 12 + 192 + 12 && g.entry == end + 12 + 192 + 12 + 16 + 12
            && Tiled(g.blocks) && Bumped(g.blocks, room - 380)
            && g.struct in Live(g.blocks) && HEADER <= g.entry
            && g.entry - HEADER == g.struct + Live(g.blocks)[g.struct] && g.entry - HEADER !in Addrs(bs)
  {
    hide Tiled, Malloc, Live, Addrs, Bumped;
    RoundedSizes();
    var n := Malloc(bs, 192);
    BumpedGrant(bs, room, 192);
    var d := Malloc(n.blocks, 16);
    BumpedGrant(n.blocks, room - 204, 16);
    BumpedGrant(d.blocks, room - 232, 136);
    BumpedLast(bs, room);
    BumpedLast(n.blocks, room - 204);
    BumpedLast(d.blocks, room - 232);
    MallocAddrs(bs, 192);
    MallocAddrs(d.blocks, 136);
  }

  /** Such a heap gives a file its node, in a block of 192 bytes, and its entry, in one of 136, right behind each
      other. */
  lemma BumpedFile(bs: seq<Block>, room: nat)
    requires Tiled(bs) && Bumped(bs, room) && room > 400
    ensures FileGrants(bs).Some?
    ensures var (g, end) := (FileGrants(bs).value, bs[|bs| - 1].addr);
            && g.node == end + 12 && g.entry == end + 12 + 192 + 12
            && g.node in Live(g.blocks) && Live(g.blocks)[g.node] == 192
            && g.entry in Live(g.blocks) && Live(g.blocks)[g.entry] == 136
            && Tiled(g.blocks) && Bumped(g.blocks, room - 352)
  {
    hide Tiled, Malloc, Live, Bumped;
    RoundedSizes();
    BumpedTwice(bs, room, RoundUp(NODE_SIZE), RoundUp(ENTRY_SIZE));
  }

  /** And for its data a block of 16 bytes and one for the buffer: as many bytes as the write reaches, rounded up to a
      multiple of 8, or 256 if it writes nothing. */
  lemma BumpedData(bs: seq<Block>, room: nat, size: nat, rounded: nat)
    requires Tiled(bs) && Bumped(bs, room) && rounded + 40 < room && size < U32_LIMIT - 8
    requires rounded % 8 == 0 && (if size == 0 then rounded == 256 else size <= rounded < size + 8)
    ensures DataGrants(bs, FirstCapacity(size)).Some?
    ensures var (g, end) := (DataGrants(bs, FirstCapacity(size)).value, bs[|bs| - 1].addr);
            && g.fd == end + 12 && g.data == end + 12 + 16 + 12
            && g.fd in Live(g.blocks) && Live(g.blocks)[g.fd] == 16
            && g.data in Live(g.blocks) && Live(g.blocks)[g.data] == rounded
            && Tiled(g.blocks) && Bumped(g.blocks, room - 40 - rounded)
  {
    hide Tiled, Malloc, Live, Bumped, RoundUp;
    RoundedSizes();
    RoundedTo(FirstCapacity(size), rounded);
    BumpedTwice(bs, room, RoundUp(DATA_SIZE), RoundUp(FirstCapacity(size)));
  }

  lemma RoundedTo(size: nat, rounded: nat)
    requires rounded % 8 == 0 && size <= rounded < size + 8 && size <= U32_LIMIT - 8
    ensures RoundUp(size) == rounded && rounded % 4 == 0
  {
    hide RoundUp;
    RoundUpIsLeast(size);
    SameMultiple(RoundUp(size), rounded);
  }

  lemma SameMultiple(m: nat, n: nat)
    requires m % 8 == 0 && n % 8 == 0 && m <= n < m + 8
    ensures m == n && n % 4 == 0
  {
    var a := Eighth(m);
    var b := Eighth(n);
    EightTimes(b);
  }

  lemma Eighth(n: nat) returns (a: nat)
    requires n % 8 == 0
    ensures n == 8 * a
  {
    a := n / 8;
  }

  lemma BumpedTwice(bs: seq<Block>, room: nat, n: nat, m: nat)
    requires Tiled(bs) && Bumped(bs, room) && n % 4 == 0 && m % 4 == 0 && n + m + 24 < room
    ensures var (f, end) := (Malloc(bs, n), bs[|bs| - 1].addr);
            var g := Malloc(f.blocks, m);
            && f.ptr == end + 12 && g.ptr == end + 12 + n + 12 && f.ptr != NULL && g.ptr != NULL
            && Tiled(g.blocks) && Bumped(g.blocks, room - n - m - 24)
            && f.ptr in Live(g.blocks) && Live(g.blocks)[f.ptr] == n && g.ptr in Live(g.blocks)
                && Live(g.blocks)[g.ptr] == m
  {
    hide Malloc, Live, Bumped;
    var f := Malloc(bs, n);
    BumpedGrant(bs, room, n);
    BumpedGrant(f.blocks, room - n - HEADER, m);
    BumpedLast(bs, room);
    BumpedLast(f.blocks, room - n - HEADER);
    MallocLive(f.blocks, m, HEAP_START);
  }

  lemma BumpedLast(bs: seq<Block>, room: nat)
    requires Bumped(bs, room)
    ensures bs[|bs| - 1].Ptr() - HEADER == bs[|bs| - 1].addr
  {
  }

  lemma RoundedSizes()
    ensures RoundUp(NODE_SIZE) == 192 && RoundUp(DIR_SIZE) == 16 && RoundUp(ENTRY_SIZE) == 136
    ensures RoundUp(DATA_SIZE) == 16
  {
    ClearLow3Aligned(NODE_SIZE + 7);
    ClearLow3Aligned(DIR_SIZE + 7);
    ClearLow3Aligned(ENTRY_SIZE + 7);
    ClearLow3Aligned(DATA_SIZE + 7);
  }

  lemma BootRoot()
    ensures RootGrants(INITIAL).Some?
    ensures Tiled(RootGrants(INITIAL).value) && Bumped(RootGrants(INITIAL).value, 65292)
  {
    RoundedSizes();
    InitialIsBumped();
    hide Tiled, Malloc, Live, Addrs, Bumped;
    BumpedGrant(INITIAL, 65524, 192);
    BumpedGrant(Malloc(INITIAL, 192).blocks, 65320, 16);
  }

  /** After `memory_init` there is room for the root and all default directories. */
  lemma BootHasRoom(inode: u32, root: nat, states: seq<Snapshot>)
    requires Mounting(INITIAL, inode, root, states)
    ensures DefaultsMade(states, DEFAULTS) == ["tmp", "proc", "dev"]
    ensures Tiled(states[3].blocks) && Bumped(states[3].blocks, 64152)
  {
    hide Tiled, Malloc, Live, Addrs, Bumped, DirGrants, LinkView, DirStore, Sound;
    BootRoot();
    BumpedDir(states[0].blocks, 65292);
    BumpedDir(states[1].blocks, 64912);
    BumpedDir(states[2].blocks, 64532);
    ThreeDefaults(states);
  }

  /** Entry `index` of the listing: finding its name in the directory leads to the node with its inode number. */
  ghost predicate Lists(objs: Store, v: View, p: Path, index: nat, d: Dirent) {
    && IsDir(v.tree, p) && index < |Listing(v.tree, p)| && d.name == Listing(v.tree, p)[index]
    && Find(v.tree, p, d.name).Some?
    && var q := Find(v.tree, p, d.name).value;
       q in v.tree && q in v.at && v.at[q] in objs && objs[v.at[q]].Node? && d.ino == objs[v.at[q]].inode
  }

  lemma EntryLists(objs: Store, root: nat, v: View, p: Path, i: nat)
    requires Shape(objs, root, v) && IsDir(v.tree, p) && NodeAt(objs, v, p) && i < |v.tree[p].names|
    ensures v.chain[p][i] in objs && objs[v.chain[p][i]].Entry?
    ensures var e := objs[v.chain[p][i]];
            e.node in objs && objs[e.node].Node? && Lists(objs, v, p, i + 2, Dirent(e.name, objs[e.node].inode))
  {
    var names := v.tree[p].names;
    assert EntryAt(objs, v, p, names, i);
    assert NamesOk(names) && names[i] in names;
    assert NodeAt(objs, v, In(p, names[i]));
  }

  lemma ChainHasNames(objs: Store, v: View, p: Path)
    requires IsDir(v.tree, p) && NodeAt(objs, v, p)
    ensures p in v.chain && |v.chain[p]| == |v.tree[p].names|
  {
  }

  /** The first two entries of a listing are the directory and its parent. */
  lemma UpIsDir(objs: Store, root: nat, v: View, p: Path)
    requires Shape(objs, root, v) && IsDir(v.tree, p)
    ensures IsDir(v.tree, Up(p))
  {
    hide NodeAt;
  }

  lemma DotsList(objs: Store, root: nat, v: View, p: Path)
    requires NULL !in objs && Shape(objs, root, v) && IsDir(v.tree, p)
    ensures p in v.at && v.at[p] in objs && objs[v.at[p]].Node? && objs[v.at[p]].ptr in objs
            && objs[objs[v.at[p]].ptr].DirStruct?
    ensures var (n, d) := (objs[v.at[p]], objs[objs[v.at[p]].ptr]);
            && Lists(objs, v, p, 0, Dirent(DOT, n.inode))
            && if d.parent == NULL then Lists(objs, v, p, 1, Dirent(DOTDOT, n.inode))
               else
                 && d.parent in objs && objs[d.parent].Node?
                 && Lists(objs, v, p, 1, Dirent(DOTDOT, objs[d.parent].inode))
  {
    hide Shape, EntryAt;
    UpIsDir(objs, root, v, p);
    ShapeAt(objs, root, v, p);
    ShapeAt(objs, root, v, Up(p));
  }

  class FileSystem {
    const heap: KernelHeap

    /** What an uninitialised byte of the region holds. */
    const stale: nat -> byte

    var objs: Store
    var nextInode: u32
    var root: nat

    /** The tree the records represent. */
    ghost var v: View

    /** Before `skullfs_init`: no records. */
    constructor (heap: KernelHeap, stale: nat -> byte)
      ensures this.heap == heap && this.stale == stale
      ensures objs == map[] && nextInode == 1 && root == NULL
    {
      this.heap := heap;
      this.stale := stale;
      objs := map[];
      nextInode := 1;
      root := NULL;
      v := View(map[], map[], map[], map[]);
    }

    ghost predicate Valid()
      reads this, heap, heap.mem
    {
      heap.Valid() && Inv(objs, Live(heap.blocks), root, v)
    }

    /** `node` is what path `p` leads to. */
    ghost predicate Refers(node: nat, p: Path)
      reads this
    {
      p in v.tree && p in v.at && v.at[p] == node
    }

    /** Allocates and fills in a record. */
    method New(o: Obj) returns (a: nat)
      requires heap.Valid() && SizeOf(o) <= U32_LIMIT - 8
      modifies this`objs, heap, heap.mem
      ensures heap.Valid()
      ensures a == Malloc(old(heap.blocks), RoundUp(SizeOf(o))).ptr
      ensures heap.blocks == Malloc(old(heap.blocks), RoundUp(SizeOf(o))).blocks
      ensures objs == if a == NULL then old(objs) else old(objs)[a := o]
    {
      a := heap.Kmalloc(SizeOf(o));
      if a != NULL {
        objs := objs[a := o];
      }
    }

    /** Returns a record's block to the heap. */
    method Drop(a: nat)
      requires heap.Valid() && StoreOk(objs, Live(heap.blocks)) && a in objs
      modifies this`objs, heap, heap.mem
      ensures heap.Valid() && StoreOk(objs, Live(heap.blocks))
      ensures heap.blocks == Free(old(heap.blocks), a)
      ensures objs == old(objs) - {a}
    {
      DropKeepsStore(heap.blocks, objs, a);
      heap.Kfree(a);
      objs := objs - {a};
    }

    /** Walks the entries of the struct `dir` to the first one called `name`; `i` counts the steps. */
    method Search(dir: nat, name: string, ghost p: Path) returns (entry: nat, prev: nat, ghost i: nat)
      requires NULL !in objs && IsDir(v.tree, p) && NodeAt(objs, v, p) && dir == StructOf(objs, v, p)
      ensures entry == NULL <==> name !in v.tree[p].names
      ensures entry != NULL ==> i == IndexOf(v.tree[p].names, name) && EntryAt(objs, v, p, v.tree[p].names, i)
      ensures entry != NULL ==> entry == v.chain[p][i] && prev == if i == 0 then NULL else v.chain[p][i - 1]
    {
      ghost var (names, chain) := (v.tree[p].names, v.chain[p]);
      entry, prev, i := objs[dir].entries, NULL, 0;
      assert names != [] ==> EntryAt(objs, v, p, names, 0);
      while entry != NULL && objs[entry].name != name
        invariant i <= |names| && entry == if i < |names| then chain[i] else NULL
        invariant prev == if i == 0 then NULL else chain[i - 1]
        invariant i < |names| ==> EntryAt(objs, v, p, names, i)
        invariant name !in names[..i]
        decreases |names| - i
      {
        prev, entry := entry, objs[entry].next;
        i := i + 1;
        assert i < |names| ==> EntryAt(objs, v, p, names, i);
      }
      if entry == NULL {
        assert names[..i] == names;
      } else {
        IndexIsFirst(names, name, i);
      }
    }

    /** Looks a name up in a directory. */
    method Finddir(node: nat, name: string, ghost p: Path) returns (r: nat)
      requires Valid() && (node != NULL ==> Refers(node, p) && v.tree[p].Dir?)
      ensures node == NULL ==> r == NULL
      ensures node != NULL ==>
                match Find(v.tree, p, name)
                case None => r == NULL
                case Some(q) => r != NULL && Refers(r, q)
    {
      if node == NULL {
        return NULL;
      }
      assert NodeAt(objs, v, p);
      var dir := objs[node].ptr;
      if name == DOT {
        return node;
      } else if name == DOTDOT {
        assert NodeAt(objs, v, Up(p));
        return if objs[dir].parent != NULL then objs[dir].parent else node;
      }
      var entry, prev, i := Search(dir, name, p);
      if entry == NULL {
        return NULL;
      }
      assert NodeAt(objs, v, In(p, name));
      return objs[entry].node;
    }

    /** Puts an entry for `node` in front of the directory struct `dir`, unless the name is taken. */
    method AddEntry(dir: nat, name: string, node: nat, ghost p: Path) returns (ok: bool)
      requires heap.Valid() && StoreOk(objs, Live(heap.blocks)) && dir != NULL && node != NULL
      requires IsDir(v.tree, p) && NodeAt(objs, v, p) && dir == StructOf(objs, v, p)
      modifies this`objs, heap, heap.mem
      ensures heap.Valid()
      ensures ok == (name !in v.tree[p].names && Malloc(old(heap.blocks), RoundUp(ENTRY_SIZE)).ptr != NULL)
      ensures !ok ==> heap.blocks == old(heap.blocks) && objs == old(objs)
      ensures ok ==> heap.blocks == Malloc(old(heap.blocks), RoundUp(ENTRY_SIZE)).blocks
      ensures ok ==> objs == WithEntry(old(objs), dir, name, node, Malloc(old(heap.blocks), RoundUp(ENTRY_SIZE)).ptr)
    {
      var entry, prev, i := Search(dir, name, p);
      if entry != NULL {
        return false;
      }
      GrantIsFresh(heap.blocks, objs, ENTRY_SIZE);
      var newEntry := New(Entry(name, node, objs[dir].entries));
      if newEntry == NULL {
        return false;
      }
      objs := objs[dir := DirStruct(newEntry, objs[dir].numEntries + 1, objs[dir].parent)];
      return true;
    }

    /** `make_file` and `make_dir`, followed by the inode number. */
    method NewNode(name: string, flags: nat) returns (node: nat)
      requires heap.Valid()
      modifies this`objs, this`nextInode, heap, heap.mem
      ensures heap.Valid()
      ensures node == Malloc(old(heap.blocks), RoundUp(NODE_SIZE)).ptr
      ensures heap.blocks == Malloc(old(heap.blocks), RoundUp(NODE_SIZE)).blocks
      ensures objs == if node == NULL then old(objs) else old(objs)[node := Node(name, flags, old(nextInode), 0, NULL)]
      ensures nextInode == InodeAfter(old(heap.blocks), old(nextInode))
    {
      node := New(Node(name, flags, 0, 0, NULL));
      if node != NULL {
        objs := objs[node := objs[node].(inode := nextInode)];
        nextInode := if nextInode + 1 == U32_LIMIT then 0 else nextInode + 1;
      }
    }

    /** The second half of creating a file: the entry, or the node's block back to the heap. */
    method LinkFile(dir: nat, name: string, file: nat, ghost p: Path, ghost bs: seq<Block>, ghost before: Store,
                    ghost inode: u32)
        returns (ok: bool)
      requires Tiled(bs) && StoreOk(before, Live(bs)) && LinkReady(before, root, v, p, name) && NodeAt(before, v, p)
      requires heap.Valid() && dir == StructOf(before, v, p) && dir != NULL
      requires file == Malloc(bs, RoundUp(NODE_SIZE)).ptr != NULL
               && heap.blocks == Malloc(bs, RoundUp(NODE_SIZE)).blocks
      requires objs == before[file := EmptyFile(name, inode)]
      modifies this`objs, this`v, heap, heap.mem
      ensures Valid()
      ensures ok <==> FileGrants(bs).Some?
      ensures !ok ==> objs == before && v == old(v) && Coarser(heap.blocks, bs)
      ensures ok ==> FileCreated(before, old(v), bs, inode, p, name, objs, v, heap.blocks)
      ensures ok ==> file in objs && objs[file] == EmptyFile(name, inode)
    {
      hide Tiled, Malloc, Free, Live, Shape;
      LinkShape(before, root, v, p, name);
      RecordMade(bs, before, root, v, EmptyFile(name, inode));
      ShapeAt(objs, root, v, p);
      ok := AddEntry(dir, name, file, p);
      if ok {
        FileMade(bs, before, root, v, p, name, inode);
        FileRecordStays(bs, before, v, p, name, inode);
        v := LinkView(v, p, name, File([]), file, NULL, FileGrants(bs).value.entry);
      } else {
        RecordUndone(bs, NODE_SIZE);
        Drop(file);
      }
    }

    method BuildFile(dir: nat, name: string, ghost p: Path) returns (file: nat)
      requires Valid() && |name| <= NAME_MAX && p in v.tree && NodeAt(objs, v, p)
      requires IsDir(v.tree, p) && Find(v.tree, p, name) == None && dir == StructOf(objs, v, p) && dir != NULL
      modifies this, heap, heap.mem
      ensures Valid() && root == old(root) && nextInode == InodeAfter(old(heap.blocks), old(nextInode))
      ensures file != NULL <==> FileGrants(old(heap.blocks)).Some?
      ensures file == NULL ==> objs == old(objs) && v == old(v) && Coarser(heap.blocks, old(heap.blocks))
      ensures file != NULL ==> file == FileGrants(old(heap.blocks)).value.node
                               && FileCreated(old(objs), old(v), old(heap.blocks), old(nextInode), p, name, objs, v,
                                              heap.blocks)
      ensures file != NULL ==> file in objs && objs[file] == EmptyFile(name, old(nextInode))
    {
      GrantIsFresh(heap.blocks, objs, NODE_SIZE);
      file := NewNode(name, FS_FILE);
      if file == NULL {
        return NULL;
      }
      var ok := LinkFile(dir, name, file, p, old(heap.blocks), old(objs), old(nextInode));
      if !ok {
        file := NULL;
      }
    }

    /** Creates an empty file, or changes nothing a path can reach and gives back what it had allocated. */
    method CreateFile(parent: nat, name: string, ghost p: Path) returns (file: nat)
      requires Valid() && |name| <= NAME_MAX && (parent != NULL ==> Refers(parent, p))
      modifies this, heap, heap.mem
      ensures Valid() && root == old(root)
      ensures nextInode == if parent != NULL && IsDir(old(v).tree, p) && Find(old(v).tree, p, name) == None
                           then InodeAfter(old(heap.blocks), old(nextInode)) else old(nextInode)
      ensures file != NULL <==> parent != NULL && IsDir(old(v).tree, p) && Find(old(v).tree, p, name) == None
                                && FileGrants(old(heap.blocks)).Some?
      ensures file == NULL ==> objs == old(objs) && v == old(v) && Coarser(heap.blocks, old(heap.blocks))
      ensures file != NULL ==> file == FileGrants(old(heap.blocks)).value.node
                               && FileCreated(old(objs), old(v), old(heap.blocks), old(nextInode), p, name, objs, v,
                                              heap.blocks)
      ensures file != NULL ==> file in objs && objs[file] == EmptyFile(name, old(nextInode))
    {
      if parent == NULL {
        return NULL;
      }
      assert NodeAt(objs, v, p);
      if objs[parent].flags % 8 != FS_DIRECTORY || objs[parent].ptr == NULL {
        return NULL;
      }
      var dir := objs[parent].ptr;
      var found := Finddir(parent, name, p);
      if found != NULL {
        return NULL;
      }
      file := BuildFile(dir, name, p);
    }

    /** Both blocks of a directory that could not be linked go back, last allocated first. */
    method UndoDir(node: nat, struct: nat, ghost bs: seq<Block>, ghost before: Store, ghost o: Obj, ghost d: Obj)
      requires heap.Valid() && StoreOk(objs, Live(heap.blocks)) && Tiled(bs)
      requires node == Malloc(bs, RoundUp(NODE_SIZE)).ptr != NULL
      requires var b := Malloc(bs, RoundUp(NODE_SIZE)).blocks;
               struct == Malloc(b, RoundUp(DIR_SIZE)).ptr != NULL && heap.blocks == Malloc(b, RoundUp(DIR_SIZE)).blocks
      requires objs == before[node := o][struct := d] && node !in before && struct !in before && node != struct
      modifies this`objs, heap, heap.mem
      ensures heap.Valid() && objs == before && Coarser(heap.blocks, bs)
    {
      TwoRecordsUndone(bs);
      Drop(struct);
      Drop(node);
    }

    /** The last step of creating a directory: the entry, or the two blocks back to the heap. */
    method LinkDir(dir: nat, name: string, node: nat, struct: nat, ghost p: Path, ghost bs: seq<Block>,
                   ghost before: Store, ghost inode: u32)
        returns (ok: bool)
      requires Tiled(bs) && StoreOk(before, Live(bs)) && LinkReady(before, root, v, p, name) && NodeAt(before, v, p)
      requires heap.Valid() && dir == StructOf(before, v, p) && dir != NULL
      requires node == Malloc(bs, RoundUp(NODE_SIZE)).ptr != NULL
      requires var b := Malloc(bs, RoundUp(NODE_SIZE)).blocks;
               struct == Malloc(b, RoundUp(DIR_SIZE)).ptr != NULL && heap.blocks == Malloc(b, RoundUp(DIR_SIZE)).blocks
      requires objs == before[node := EmptyDir(name, inode, struct)][struct := DirStruct(NULL, 0, v.at[p])]
      requires node !in before && struct !in before && node != struct
      requires StoreOk(objs, Live(heap.blocks)) && NodeAt(objs, v, p)
      modifies this`objs, this`v, heap, heap.mem
      ensures Valid()
      ensures ok <==> DirGrants(bs).Some?
      ensures !ok ==> objs == before && v == old(v) && Coarser(heap.blocks, bs)
      ensures ok ==> DirCreated(before, old(v), bs, inode, p, name, objs, v, heap.blocks)
    {
      hide Tiled, Malloc, Free, Live, Shape;
      LinkShape(before, root, v, p, name);
      ok := AddEntry(dir, name, node, p);
      if ok {
        DirMade(bs, before, root, v, p, name, inode);
        v := LinkView(v, p, name, Dir([]), node, struct, DirGrants(bs).value.entry);
      } else {
        UndoDir(node, struct, bs, before, EmptyDir(name, inode, struct), DirStruct(NULL, 0, v.at[p]));
      }
    }

    /** The two records of a new directory, or none. */
    method NewDir(name: string, parent: nat) returns (node: nat, struct: nat)
      requires heap.Valid() && StoreOk(objs, Live(heap.blocks))
      modifies this`objs, this`nextInode, heap, heap.mem
      ensures heap.Valid() && nextInode == InodeAfter(old(heap.blocks), old(nextInode))
      ensures var n := Malloc(old(heap.blocks), RoundUp(NODE_SIZE));
              var d := Malloc(n.blocks, RoundUp(DIR_SIZE));
              && (struct != NULL <==> n.ptr != NULL && d.ptr != NULL)
              && (struct != NULL ==> node == n.ptr && struct == d.ptr && heap.blocks == d.blocks)
      ensures struct == NULL ==> objs == old(objs) && Coarser(heap.blocks, old(heap.blocks))
      ensures struct != NULL ==>
                objs == old(objs)[node := EmptyDir(name, old(nextInode), struct)][struct := DirStruct(NULL, 0, parent)]
    {
      hide Tiled, Malloc, Free, Live, Headers, Coarser;
      ghost var bs := heap.blocks;
      CoarserThanItself(bs);
      GrantIsFresh(bs, objs, NODE_SIZE);
      node := NewNode(name, FS_DIRECTORY);
      if node == NULL {
        return NULL, NULL;
      }
      FreshStore(bs, objs, old(objs), node, objs[node]);
      GrantIsFresh(heap.blocks, objs, DIR_SIZE);
      struct := New(DirStruct(NULL, 0, parent));
      if struct == NULL {
        RecordUndone(bs, NODE_SIZE);
        Drop(node);
        return;
      }
      objs := objs[node := objs[node].(ptr := struct)];
      assert objs == old(objs)[node := EmptyDir(name, old(nextInode), struct)][struct := DirStruct(NULL, 0, parent)];
    }

    method BuildDir(parent: nat, dir: nat, name: string, ghost p: Path) returns (newDir: nat)
      requires Valid() && |name| <= NAME_MAX && Refers(parent, p) && NodeAt(objs, v, p)
      requires IsDir(v.tree, p) && Find(v.tree, p, name) == None && dir == StructOf(objs, v, p) && dir != NULL
      modifies this, heap, heap.mem
      ensures Valid() && root == old(root) && nextInode == InodeAfter(old(heap.blocks), old(nextInode))
      ensures newDir != NULL <==> DirGrants(old(heap.blocks)).Some?
      ensures newDir == NULL ==> objs == old(objs) && v == old(v) && Coarser(heap.blocks, old(heap.blocks))
      ensures newDir != NULL ==> newDir == DirGrants(old(heap.blocks)).value.node
                                 && DirCreated(old(objs), old(v), old(heap.blocks), old(nextInode), p, name, objs, v,
                                               heap.blocks)
    {
      var node, struct := NewDir(name, parent);
      if struct == NULL {
        return NULL;
      }
      ghost var n := Malloc(old(heap.blocks), RoundUp(NODE_SIZE));
      DirRecordsMade(old(heap.blocks), old(objs), root, v, p, n, Malloc(n.blocks, RoundUp(DIR_SIZE)),
                     EmptyDir(name, old(nextInode), struct), DirStruct(NULL, 0, parent), objs);
      var ok := LinkDir(dir, name, node, struct, p, old(heap.blocks), old(objs), old(nextInode));
      newDir := if ok then node else NULL;
    }

    /** Creates an empty directory, or changes nothing a path can reach and gives back what it had allocated. */
    method CreateDir(parent: nat, name: string, ghost p: Path) returns (newDir: nat)
      requires Valid() && |name| <= NAME_MAX && (parent != NULL ==> Refers(parent, p))
      modifies this, heap, heap.mem
      ensures Valid() && root == old(root)
      ensures nextInode == if parent != NULL && IsDir(old(v).tree, p) && Find(old(v).tree, p, name) == None
                           then InodeAfter(old(heap.blocks), old(nextInode)) else old(nextInode)
      ensures newDir != NULL <==> parent != NULL && IsDir(old(v).tree, p) && Find(old(v).tree, p, name) == None
                                  && DirGrants(old(heap.blocks)).Some?
      ensures newDir == NULL ==> objs == old(objs) && v == old(v) && Coarser(heap.blocks, old(heap.blocks))
      ensures newDir != NULL ==> newDir == DirGrants(old(heap.blocks)).value.node
                                 && DirCreated(old(objs), old(v), old(heap.blocks), old(nextInode), p, name, objs, v,
                                               heap.blocks)
    {
      if parent == NULL {
        return NULL;
      }
      assert NodeAt(objs, v, p);
      if objs[parent].flags % 8 != FS_DIRECTORY || objs[parent].ptr == NULL {
        return NULL;
      }
      var dir := objs[parent].ptr;
      var found := Finddir(parent, name, p);
      if found != NULL {
        return NULL;
      }
      newDir := BuildDir(parent, dir, name, p);
    }

    /** Unlinks the entry `name` and frees it. */
    method RemoveEntry(dir: nat, name: string, ghost p: Path) returns (ghost i: nat)
      requires heap.Valid() && StoreOk(objs, Live(heap.blocks))
      requires IsDir(v.tree, p) && NodeAt(objs, v, p) && dir == StructOf(objs, v, p)
      requires name in v.tree[p].names && Distinct(v.tree[p].names)
      modifies this`objs, heap, heap.mem
      ensures heap.Valid() && StoreOk(objs, Live(heap.blocks))
      ensures i == IndexOf(v.tree[p].names, name) < |v.chain[p]|
      ensures heap.blocks == Free(old(heap.blocks), v.chain[p][i])
      ensures var o := old(objs);
              && dir in o && o[dir].DirStruct? && o[dir].numEntries > 0
              && v.chain[p][i] in o && o[v.chain[p][i]].Entry? && v.chain[p][i] != dir
              && (i > 0 ==> v.chain[p][i - 1] in o && o[v.chain[p][i - 1]].Entry? && v.chain[p][i - 1] != dir)
              && objs == CutEntry(o, dir, v.chain[p], i)
    {
      hide Shape, Tiled, Malloc, Live, Headers;
      var entry, prev;
      entry, prev, i := Search(dir, name, p);
      EntryCanGo(objs, v, p, i);
      CutFrom(dir, entry, prev, v.chain[p], i);
    }

    /** Takes entry `i` out of its chain, and frees it. */
    method CutFrom(dir: nat, entry: nat, prev: nat, ghost chain: seq<nat>, ghost i: nat)
      requires heap.Valid() && StoreOk(objs, Live(heap.blocks)) && i < |chain| && entry == chain[i]
      requires prev == if i == 0 then NULL else chain[i - 1]
      requires dir in objs && objs[dir].DirStruct? && objs[dir].numEntries > 0
      requires entry in objs && objs[entry].Entry? && entry != dir
      requires i > 0 ==>
                 chain[i - 1] in objs && objs[chain[i - 1]].Entry? && chain[i - 1] != dir && chain[i - 1] != entry
      modifies this`objs, heap, heap.mem
      ensures heap.Valid() && StoreOk(objs, Live(heap.blocks))
      ensures heap.blocks == Free(old(heap.blocks), entry)
      ensures objs == CutEntry(old(objs), dir, chain, i)
    {
      hide Tiled, Malloc, Live, Headers;
      var next := objs[entry].next;
      if prev != NULL {
        objs := objs[prev := objs[prev].(next := next)];
      } else {
        objs := objs[dir := objs[dir].(entries := next)];
      }
      Drop(entry);
      objs := objs[dir := objs[dir].(numEntries := objs[dir].numEntries - 1)];
    }

    /** Frees the data of a file. */
    method FreeFileData(fd: nat)
      requires heap.Valid() && StoreOk(objs, Live(heap.blocks))
      requires fd in objs && objs[fd].FileData? && objs[fd].data in objs && objs[fd].data != fd
      modifies this`objs, heap, heap.mem
      ensures heap.Valid() && StoreOk(objs, Live(heap.blocks))
      ensures var s := [old(objs)[fd].data, fd];
              objs == Without(old(objs), s) && heap.blocks == FreeAll(old(heap.blocks), s)
    {
      ghost var data := objs[fd].data;
      Drop(objs[fd].data);
      Drop(fd);
      FreeAllTwo(old(heap.blocks), data, fd);
      assert objs == Without(old(objs), [data, fd]);
    }

    /** Frees the entries of a directory, whatever they still list, and its struct. */
    method FreeDir(dir: nat, ghost c: Path)
      requires heap.Valid() && StoreOk(objs, Live(heap.blocks))
      requires IsDir(v.tree, c) && NodeAt(objs, v, c) && Distinct(v.tree[c].names) && dir == StructOf(objs, v, c)
      modifies this`objs, heap, heap.mem
      ensures heap.Valid() && StoreOk(objs, Live(heap.blocks))
      ensures objs == Without(old(objs), v.chain[c] + [dir])
      ensures heap.blocks == FreeAll(old(heap.blocks), v.chain[c] + [dir])
    {
      hide Tiled, Live, Headers, EntryAt, FileAt, Free;
      ghost var (before, bs, chain) := (objs, heap.blocks, v.chain[c]);
      BehindDistinct(objs, v, c);
      ChainHasNoNull(objs, v, c);
      ghost var behind := Behind(objs, v, c);
      assert behind == chain + [dir];
      var entry := objs[dir].entries;
      ghost var i := 0;
      while entry != NULL
        invariant i <= |chain| && entry == if i < |chain| then chain[i] else NULL
        invariant heap.Valid() && StoreOk(objs, Live(heap.blocks))
        invariant objs == Without(before, behind[..i]) && heap.blocks == FreeAll(bs, behind[..i])
        decreases |chain| - i
      {
        entry := DropNext(entry, before, bs, c, i);
        i := i + 1;
      }
      assert behind[..i] == chain && behind[..i + 1] == behind && behind[i] == dir;
      WithoutMore(before, behind, i);
      FreeAllMore(bs, behind[..i], dir);
      Drop(dir);
    }

    /** One round of that loop: reads the next entry before it frees this one. */
    method DropNext(entry: nat, ghost before: Store, ghost bs: seq<Block>, ghost c: Path,
                    ghost i: nat) returns (next: nat)
      requires heap.Valid() && StoreOk(objs, Live(heap.blocks)) && NULL !in before
      requires IsDir(v.tree, c) && NodeAt(before, v, c) && Distinct(Behind(before, v, c))
      requires i < |v.chain[c]| && entry == v.chain[c][i]
      requires objs == Without(before, Behind(before, v, c)[..i])
               && heap.blocks == FreeAll(bs, Behind(before, v, c)[..i])
      modifies this`objs, heap, heap.mem
      ensures heap.Valid() && StoreOk(objs, Live(heap.blocks))
      ensures objs == Without(before, Behind(before, v, c)[..i + 1])
      ensures heap.blocks == FreeAll(bs, Behind(before, v, c)[..i + 1])
      ensures next == NextIn(v.chain[c], i)
    {
      ghost var behind := Behind(before, v, c);
      assert EntryAt(before, v, c, v.tree[c].names, i);
      assert behind[i] == entry;
      WithoutMore(before, behind, i);
      FreeAllMore(bs, behind[..i], entry);
      assert behind[..i] + [entry] == behind[..i + 1];
      next := objs[entry].next;
      Drop(entry);
    }

    /** Frees what is behind a node: file data, or the entries and struct of a directory. */
    method FreeContent(node: nat, ghost c: Path)
      requires heap.Valid() && StoreOk(objs, Live(heap.blocks))
      requires c in v.tree && NodeAt(objs, v, c) && v.at[c] == node && (v.tree[c].Dir? ==> Distinct(v.tree[c].names))
      modifies this`objs, heap, heap.mem
      ensures heap.Valid() && StoreOk(objs, Live(heap.blocks))
      ensures objs == Without(old(objs), Behind(old(objs), v, c))
      ensures heap.blocks == FreeAll(old(heap.blocks), Behind(old(objs), v, c))
    {
      var ptr := objs[node].ptr;
      if objs[node].flags % 8 == FS_DIRECTORY {
        if ptr != NULL {
          FreeDir(ptr, c);
        }
      } else if ptr != NULL {
        FreeFileData(ptr);
      }
    }

    /** Frees the node at `name` in directory `p`, all that is behind it, and its entry. */
    method FreeNode(dir: nat, node: nat, name: string, ghost p: Path)
      requires heap.Valid() && StoreOk(objs, Live(heap.blocks))
      requires CanGo(objs, v, p, name) && dir == StructOf(objs, v, p) && node == v.at[In(p, name)]
      modifies this`objs, heap, heap.mem
      ensures heap.Valid() && StoreOk(objs, Live(heap.blocks))
      ensures objs == AfterDelete(old(objs), v, p, name)
      ensures heap.blocks == FreeAll(old(heap.blocks), Freed(old(objs), v, p, IndexOf(v.tree[p].names, name)))
    {
      ghost var behind := Behind(objs, v, In(p, name));
      FreeContent(node, In(p, name));
      ghost var i := RemoveEntry(dir, name, p);
      Drop(node);
      FreeAllThenTwo(old(heap.blocks), behind, v.chain[p][i], node);
    }

    /** The same, with the tree that is left. */
    method DeleteNode(dir: nat, node: nat, name: string, ghost p: Path)
      requires Valid() && IsDir(v.tree, p) && NodeAt(objs, v, p) && dir == StructOf(objs, v, p)
      requires name in v.tree[p].names && Refers(node, In(p, name))
      modifies this`objs, this`v, heap, heap.mem
      ensures Valid()
      ensures Removed(old(objs), old(v), p, name, old(heap.blocks), objs, v, heap.blocks)
    {
      hide Tiled, Malloc, Free, Shape, Live;
      ContentCanGo(objs, root, v, p, name);
      DeleteDone(objs, root, v, p, name);
      FreeNode(dir, node, name, p);
      v := UnlinkView(v, p, name);
    }

    /** A directory with more than two entries. */
    method HasEntries(node: nat, ghost q: Path) returns (full: bool)
      requires Valid() && Refers(node, q) && node != NULL
      ensures full == (IsDir(v.tree, q) && |v.tree[q].names| > 2)
    {
      assert NodeAt(objs, v, q);
      full := objs[node].flags % 8 == FS_DIRECTORY && objs[node].ptr != NULL && objs[objs[node].ptr].numEntries > 2;
    }

    /** Deletes a file, or a directory with at most two entries and all that lies below it. */
    method Delete(parent: nat, name: string, ghost p: Path) returns (ok: bool)
      requires Valid() && (parent != NULL ==> Refers(parent, p) && v.tree[p].Dir? && KeepsItself(v.tree, p, name))
      modifies this, heap, heap.mem
      ensures Valid() && root == old(root) && nextInode == old(nextInode)
      ensures ok <==> parent != NULL && In(p, name) in old(v).tree
                      && match old(v).tree[In(p, name)] { case File(_) => true case Dir(names) => |names| <= 2 }
      ensures !ok ==> objs == old(objs) && v == old(v) && heap.blocks == old(heap.blocks)
      ensures ok ==> Removed(old(objs), old(v), p, name, old(heap.blocks), objs, v, heap.blocks)
    {
      if parent == NULL {
        return false;
      }
      assert NodeAt(objs, v, p);
      var dir := objs[parent].ptr;
      var node := Finddir(parent, name, p);
      if node == NULL {
        return false;
      }
      SelfIsNoEntry(v.tree, p, name);
      var full := HasEntries(node, Find(v.tree, p, name).value);
      if full {
        return false;
      }
      DeleteNode(dir, node, name, p);
      ok := true;
    }

    /** A data buffer of `capacity` bytes, holding whatever the region held. */
    method NewBuffer(capacity: nat) returns (a: nat, ghost junk: seq<byte>)
      requires heap.Valid() && capacity <= U32_LIMIT - 8
      modifies this`objs, heap, heap.mem
      ensures heap.Valid()
      ensures a == Malloc(old(heap.blocks), RoundUp(capacity)).ptr
      ensures heap.blocks == Malloc(old(heap.blocks), RoundUp(capacity)).blocks
      ensures |junk| == capacity
      ensures objs == if a == NULL then old(objs) else old(objs)[a := Buffer(junk)]
    {
      a := heap.Kmalloc(capacity);
      var content := seq(capacity, i requires 0 <= i => stale(a + i));
      junk := content;
      if a != NULL {
        objs := objs[a := Buffer(content)];
      }
    }

    /** File data with an empty buffer, or nothing and the heap given back. */
    method AllocateFileData(initialSize: nat) returns (fd: nat, ghost junk: seq<byte>)
      requires heap.Valid() && StoreOk(objs, Live(heap.blocks)) && initialSize <= U32_LIMIT - 8
      modifies this`objs, heap, heap.mem
      ensures heap.Valid() && |junk| == FirstCapacity(initialSize)
      ensures fd != NULL <==> DataGrants(old(heap.blocks), |junk|).Some?
      ensures fd == NULL ==> objs == old(objs) && Coarser(heap.blocks, old(heap.blocks))
      ensures fd != NULL ==>
                var g := DataGrants(old(heap.blocks), |junk|).value;
                fd == g.fd && heap.blocks == g.blocks && objs == DataStore(old(objs), g.fd, g.data, junk)
    {
      hide Tiled, Malloc, Free, Live, Headers, Coarser;
      ghost var bs := heap.blocks;
      CoarserThanItself(bs);
      var capacity := FirstCapacity(initialSize);
      junk := seq(capacity, i => 0);
      GrantIsFresh(bs, objs, DATA_SIZE);
      fd := New(FileData(NULL, 0, capacity, capacity, 0));
      if fd == NULL {
        return;
      }
      FreshStore(bs, objs, old(objs), fd, FileData(NULL, 0, capacity, capacity, 0));
      GrantIsFresh(heap.blocks, objs, capacity);
      var data;
      data, junk := NewBuffer(capacity);
      if data == NULL {
        RecordUndone(bs, DATA_SIZE);
        Drop(fd);
        fd := NULL;
        return;
      }
      objs := objs[fd := objs[fd].(data := data)];
      assert objs == DataStore(old(objs), fd, data, junk);
    }

    /** Gives the file its data record on the first write; the file stays empty. */
    method AttachData(node: nat, initialSize: nat, ghost p: Path) returns (fd: nat)
      requires Valid() && Refers(node, p) && v.tree[p].File? && initialSize <= 0x8000_0000
      requires node in objs && objs[node].Node? && objs[node].ptr == NULL
      modifies this`objs, this`v, heap, heap.mem
      ensures Valid()
      ensures fd != NULL <==> DataGrants(old(heap.blocks), FirstCapacity(initialSize)).Some?
      ensures fd == NULL ==> objs == old(objs) && v == old(v) && Coarser(heap.blocks, old(heap.blocks))
      ensures fd != NULL ==>
                DataAttached(old(objs), old(heap.blocks), old(v), p, fd, FirstCapacity(initialSize), objs, heap.blocks,
                             v)
    {
      hide Tiled, Headers, Live, Malloc, DataGrants, Shape, StoreOk, DataAttached;
      FileRecord(objs, Live(heap.blocks), root, v, p);
      ghost var junk;
      fd, junk := AllocateFileData(initialSize);
      if fd != NULL {
        FirstDataHeld(old(heap.blocks), old(objs), root, v, p, junk);
        objs := objs[node := objs[node].(ptr := fd)];
        v := FileView(v, p, [], fd, objs[fd].data);
        FirstStoreAttaches(old(objs), old(heap.blocks), old(v), p, junk);
      }
    }

    /** The doubling loop of a resize. */
    method GrowCapacity(capacity: u32, newSize: nat) returns (newCapacity: u32)
      requires 0 < capacity && newSize <= 0x8000_0000
      ensures newCapacity == Grown(capacity, newSize)
    {
      newCapacity := capacity;
      while newCapacity < newSize
        invariant 0 < newCapacity && Grown(newCapacity, newSize) == Grown(capacity, newSize)
        decreases newSize - newCapacity
      {
        newCapacity := newCapacity * 2;
      }
    }

    /** Moves the bytes of a file to a buffer that is large enough. */
    method MoveFileData(fd: nat, newSize: nat) returns (ok: bool)
      requires heap.Valid() && StoreOk(objs, Live(heap.blocks)) && DataOk(objs, fd)
               && objs[fd].capacity < newSize <= 0x8000_0000
      modifies this`objs, heap, heap.mem
      ensures heap.Valid() && StoreOk(objs, Live(heap.blocks))
      ensures Grown(old(objs)[fd].capacity, newSize) <= U32_LIMIT - 8
      ensures ok <==> LargerBuffer(old(heap.blocks), old(objs)[fd].capacity, newSize).ptr != NULL
      ensures !ok ==> objs == old(objs) && heap.blocks == old(heap.blocks)
      ensures var (o, g) := (old(objs), LargerBuffer(old(heap.blocks), old(objs)[fd].capacity, newSize));
              ok ==>
                ResizedTo(o, fd, newSize, objs) && objs[fd].data == g.ptr && heap.blocks == Free(g.blocks, o[fd].data)
    {
      hide Malloc, Free, Tiled, Live, Headers, ResizedTo, SameBut;
      CapacityFits(heap.blocks, objs, fd);
      GrownFits(objs[fd].capacity, newSize);
      var newCapacity := GrowCapacity(objs[fd].capacity, newSize);
      GrantIsFresh(heap.blocks, objs, newCapacity);
      var newData, junk := NewBuffer(newCapacity);
      if newData == NULL {
        return false;
      }
      FreshStore(old(heap.blocks), objs, old(objs), newData, Buffer(junk));
      var data := objs[fd].data;
      var copied := Splice(objs[newData].bytes, 0, objs[data].bytes[..objs[fd].size]);
      assert copied[..objs[fd].size] == objs[data].bytes[..objs[fd].size];
      MovedIsResized(old(objs), fd, newSize, newData, copied);
      objs := objs[newData := Buffer(copied)];
      Drop(data);
      objs := objs[fd := objs[fd].(data := newData, capacity := newCapacity,
                                   copied := objs[fd].copied + objs[fd].size)];
      assert objs == MovedStore(old(objs), fd, newData, copied);
      ok := true;
    }

    /** Makes room for `newSize` bytes, in a new buffer if need be. */
    method ResizeFileData(fd: nat, newSize: nat) returns (ok: bool)
      requires heap.Valid() && StoreOk(objs, Live(heap.blocks)) && DataOk(objs, fd) && newSize <= 0x8000_0000
      modifies this`objs, heap, heap.mem
      ensures heap.Valid() && StoreOk(objs, Live(heap.blocks))
      ensures ok == ResizeFits(old(heap.blocks), old(objs)[fd].capacity, newSize)
      ensures !ok ==> objs == old(objs) && heap.blocks == old(heap.blocks)
      ensures ok ==> ResizedTo(old(objs), fd, newSize, objs)
                     && objs[fd].data == BufferAfter(old(heap.blocks), old(objs)[fd].capacity, newSize,
                                                     old(objs)[fd].data)
      ensures ok ==> heap.blocks == ResizedHeap(old(heap.blocks), old(objs)[fd].capacity, newSize, old(objs)[fd].data)
    {
      hide Malloc, Free, Tiled, Live, Headers, ResizedTo, SameBut, Grown;
      if newSize <= objs[fd].capacity {
        ResizeInPlace(objs, fd, newSize);
        return true;
      }
      ok := MoveFileData(fd, newSize);
    }

    /** The records a write changes. */
    method StoreWrite(node: nat, fd: nat, offset: nat, data: seq<byte>) returns (ok: bool, ghost resized: Store)
      requires heap.Valid() && StoreOk(objs, Live(heap.blocks)) && DataOk(objs, fd) && offset + |data| <= 0x8000_0000
      requires node in objs && objs[node].Node?
      modifies this`objs, heap, heap.mem
      ensures heap.Valid() && StoreOk(objs, Live(heap.blocks))
      ensures ok == ResizeFits(old(heap.blocks), old(objs)[fd].capacity, offset + |data|)
      ensures !ok ==> objs == old(objs) && heap.blocks == old(heap.blocks)
      ensures ok ==> ResizedTo(old(objs), fd, offset + |data|, resized) && node in resized && resized[node].Node?
                     && objs == WrittenStore(resized, node, fd, offset, data)
                     && resized[fd].data == BufferAfter(old(heap.blocks), old(objs)[fd].capacity, offset + |data|,
                                                        old(objs)[fd].data)
      ensures ok ==> heap.blocks == ResizedHeap(old(heap.blocks), old(objs)[fd].capacity, offset + |data|,
                                                old(objs)[fd].data)
    {
      hide Tiled, Malloc, Free, Live, Headers, ResizedHeap;
      ok := ResizeFileData(fd, offset + |data|);
      resized := objs;
      if !ok {
        return;
      }
      WriteStoreOk(objs, Live(heap.blocks), node, fd, offset, data);
      var buffer := objs[fd].data;
      if offset + |data| > objs[fd].size {
        objs := objs[fd := objs[fd].(size := offset + |data|)][node := objs[node].(length := offset + |data|)];
      }
      objs := objs[buffer := Buffer(Splice(objs[buffer].bytes, offset, data))];
    }

    /** Writes into a file that has a data record. */
    method WriteData(node: nat, fd: nat, offset: nat, data: seq<byte>, ghost p: Path) returns (ok: bool)
      requires Valid() && Refers(node, p) && HasData(objs, v, p, fd) && offset + |data| <= 0x8000_0000
      modifies this`objs, this`v, heap, heap.mem
      ensures Valid()
      ensures ok == ResizeFits(old(heap.blocks), old(objs)[fd].capacity, offset + |data|)
      ensures !ok ==> objs == old(objs) && v == old(v) && heap.blocks == old(heap.blocks)
      ensures ok ==> DataWritten(old(objs), old(heap.blocks), old(v), p, fd, offset, data, objs, heap.blocks, v)
    {
      hide Tiled, Malloc, Free, Shape, Live;
      ghost var (before, resized) := (objs, objs);
      ok, resized := StoreWrite(node, fd, offset, data);
      if ok {
        WriteDone(before, root, v, p, fd, offset, data, resized, objs);
        v := FileView(v, p, Bytes(objs, fd), fd, objs[fd].data);
      }
    }

    /** The first write to a file: once it has a buffer, nothing can fail any more. */
    method FirstWrite(node: nat, offset: nat, data: seq<byte>, ghost p: Path) returns (ok: bool)
      requires Valid() && Refers(node, p) && v.tree[p].File? && offset + |data| <= 0x8000_0000
      requires node in objs && objs[node].Node? && objs[node].ptr == NULL && v.tree[p].bytes == []
      modifies this`objs, this`v, heap, heap.mem
      ensures Valid()
      ensures ok <==> DataGrants(old(heap.blocks), FirstCapacity(offset + |data|)).Some?
      ensures !ok ==> objs == old(objs) && v == old(v) && Coarser(heap.blocks, old(heap.blocks))
      ensures ok ==> Wrote(old(objs), old(heap.blocks), old(v), node, p, offset, data, objs, heap.blocks, v)
    {
      hide Inv, Tiled, Headers, Live, Malloc, DataGrants, HasData, DataWritten, DataAttached, Wrote, ResizeFits;
      var fd := AttachData(node, offset + |data|, p);
      if fd == NULL {
        return false;
      }
      ghost var (mid, bs, w) := (objs, heap.blocks, v);
      AttachedHasData(old(objs), old(heap.blocks), old(v), p, fd, offset + |data|, mid, bs, w);
      ok := WriteData(node, fd, offset, data, p);
      AttachedThenWritten(old(objs), old(heap.blocks), old(v), p, fd, offset, data, mid, bs, w, objs, heap.blocks, v);
    }

    /** Writes bytes into a file: exactly when the memory it needs is there, or else changing nothing a path can
        reach. */
    method Write(node: nat, offset: nat, data: seq<byte>, ghost p: Path) returns (n: nat, ghost ok: bool)
      requires Valid() && offset + |data| <= 0x8000_0000
      requires node != NULL ==> Refers(node, p) && v.tree[p].File?
      modifies this, heap, heap.mem
      ensures Valid() && root == old(root) && nextInode == old(nextInode)
      ensures n == if ok then |data| else 0
      ensures ok <==> node != NULL && WriteFits(old(objs), node, offset + |data|, old(heap.blocks))
      ensures !ok ==> objs == old(objs) && v == old(v) && Coarser(heap.blocks, old(heap.blocks))
      ensures ok ==> Wrote(old(objs), old(heap.blocks), old(v), node, p, offset, data, objs, heap.blocks, v)
    {
      hide Inv, Tiled, Headers, Live, HasData, DataWritten, Wrote, ResizeFits;
      if node == NULL {
        return 0, false;
      }
      FileRecord(objs, Live(heap.blocks), root, v, p);
      var fd := objs[node].ptr;
      var written;
      if fd == NULL {
        written := FirstWrite(node, offset, data, p);
      } else {
        written := WriteData(node, fd, offset, data, p);
        if written {
          LaterWrote(old(objs), old(heap.blocks), old(v), node, p, offset, data, objs, heap.blocks, v);
        }
      }
      n, ok := if written then |data| else 0, written;
    }

    /** Reads at most `size` bytes from `offset`, fewer at the end of the file. */
    method Read(node: nat, offset: nat, size: nat, ghost p: Path) returns (data: seq<byte>)
      requires Valid() && offset + size < U32_LIMIT
      requires node != NULL ==> Refers(node, p) && v.tree[p].File?
      ensures node == NULL ==> data == []
      ensures node != NULL ==> data == Part(v.tree[p].bytes, offset, size)
      ensures node != NULL ==> IsPart(v.tree[p].bytes, offset, size, data)
    {
      hide Inv, Tiled, Headers, Part, IsPart, Live;
      if node == NULL {
        return [];
      }
      PartIsPart(v.tree[p].bytes, offset, size);
      FileBytes(objs, Live(heap.blocks), root, v, p);
      NothingToRead(offset, size);
      var fd := objs[node].ptr;
      if fd == NULL {
        return [];
      }
      PartOfBuffer(objs[objs[fd].data].bytes, objs[fd].size, offset, size);
      if offset >= objs[fd].size {
        return [];
      }
      var count := if offset + size > objs[fd].size then objs[fd].size - offset else size;
      data := objs[objs[fd].data].bytes[offset..offset + count];
    }

    /** The entry `index` steps down the list, or NULL at its end. */
    method EntryByIndex(dir: nat, index: nat, ghost p: Path) returns (entry: nat)
      requires NULL !in objs && IsDir(v.tree, p) && NodeAt(objs, v, p) && dir == StructOf(objs, v, p)
      ensures entry == if index < |v.chain[p]| then v.chain[p][index] else NULL
    {
      ghost var (names, chain) := (v.tree[p].names, v.chain[p]);
      ChainHasNoNull(objs, v, p);
      entry := objs[dir].entries;
      var i := 0;
      while entry != NULL && i < index
        invariant i <= |names| && i <= index && entry == if i < |names| then chain[i] else NULL
        decreases |names| - i
      {
        assert EntryAt(objs, v, p, names, i);
        entry := objs[entry].next;
        i := i + 1;
      }
    }

    /** Lists a directory by index: itself, its parent, then its entries, newest first. */
    method Readdir(node: nat, index: nat, ghost p: Path) returns (r: Option<Dirent>)
      requires Valid() && (node != NULL ==> Refers(node, p) && v.tree[p].Dir?)
      ensures node == NULL ==> r == None
      ensures node != NULL ==> (r.Some? <==> index < |Listing(v.tree, p)|)
      ensures r.Some? ==> Lists(objs, v, p, index, r.value)
    {
      hide Shape, NodeAt, Lists, Tiled, Headers, Live;
      if node == NULL {
        return None;
      }
      DotsList(objs, root, v, p);
      ShapeAt(objs, root, v, p);
      var dir := objs[node].ptr;
      if index == 0 {
        return Some(Dirent(DOT, objs[node].inode));
      } else if index == 1 {
        return Some(Dirent(DOTDOT, if objs[dir].parent != NULL then objs[objs[dir].parent].inode
                           else objs[node].inode));
      }
      ChainHasNames(objs, v, p);
      ChainHasNoNull(objs, v, p);
      var entry := EntryByIndex(dir, index - 2, p);
      if entry == NULL {
        return None;
      }
      EntryLists(objs, root, v, p, index - 2);
      r := Some(Dirent(objs[entry].name, objs[objs[entry].node].inode));
    }

    /** The root directory. */
    method MakeRoot() returns (ok: bool)
      requires heap.Valid() && objs == map[]
      modifies this, heap, heap.mem
      ensures ok <==> RootGrants(old(heap.blocks)).Some?
      ensures nextInode == InodeAfter(old(heap.blocks), old(nextInode))
      ensures !ok ==> root == NULL && objs == map[] && heap.Valid() && Coarser(heap.blocks, old(heap.blocks))
      ensures ok ==> root != NULL && Valid() && RootOnly(old(heap.blocks), old(nextInode), root, Now(this))
    {
      root := NULL;
      var node, struct := NewDir("/", NULL);
      if struct == NULL {
        return false;
      }
      RootMade(old(heap.blocks), node, struct, old(nextInode));
      root := node;
      v := View(map[Root := Dir([])], map[Root := node], map[Root := []],
                map[node := NodeOf(Root), struct := DirOf(Root)]);
      ok := true;
    }

    /** `skullfs_init`: the root, and each default directory exactly if its memory is there at that moment. */
    method Mount() returns (r: nat, ghost states: seq<Snapshot>)
      requires heap.Valid() && objs == map[]
      modifies this, heap, heap.mem
      ensures r == root
      ensures r != NULL <==> RootGrants(old(heap.blocks)).Some?
      ensures r == NULL ==> objs == map[] && Coarser(heap.blocks, old(heap.blocks))
      ensures r != NULL ==>
                Valid() && Mounting(old(heap.blocks), old(nextInode), root, states) && Now(this) == states[3]
      ensures r != NULL ==> v.tree == Directories(DefaultsMade(states, DEFAULTS))
    {
      hide Tiled, Headers, Malloc, Free, Live, Inv, DirGrants, DefaultTried, RootOnly;
      states := [];
      var ok := MakeRoot();
      if ok {
        ghost var s0 := Now(this);
        RootIsEmpty(old(heap.blocks), old(nextInode), root, s0);
        ghost var made := MakeDefault("dev", []);
        ghost var s1 := Now(this);
        made := MakeDefault("proc", made);
        ghost var s2 := Now(this);
        made := MakeDefault("tmp", made);
        states := [s0, s1, s2, Now(this)];
        ThreeDefaults(states);
      }
      r := root;
    }

    method MakeDefault(name: string, ghost made: seq<string>) returns (ghost now: seq<string>)
      requires Valid() && root != NULL && v.tree == Directories(made)
      requires name !in made && |name| <= NAME_MAX && name != DOT && name != DOTDOT
      modifies this, heap, heap.mem
      ensures Valid() && root == old(root)
      ensures v.tree == Directories(now)
      ensures now == (if DirGrants(old(heap.blocks)).Some? then [name] else []) + made
      ensures DefaultTried(old(Now(this)), name, Now(this))
    {
      assert NodeAt(objs, v, Root);
      var node := CreateDir(root, name, Root);
      now := if node != NULL then [name] + made else made;
      assert ([name] + made)[1..] == made;
    }
  }
}
