/**
 Which blocks the operations lose: allocated, and owned by no node of the tree.
 */
module FsLeaks {
  import opened Machine
  import opened HeapModel
  import opened HeapRuns
  import opened FsTree
  import opened FsModel
  import opened PathModel
  import opened SkullFs
  import opened Words
  import opened PathWalk
  import opened FsCommands
  import opened FsRuns

  // ---- Owners -----------------------------------------------------------------

  ghost predicate Owns(objs: Store, v: View, p: Path, a: nat) {
    p in v.tree && NodeAt(objs, v, p) && a in Owned(objs, v, p)
  }

  /** A record that no node of the tree owns. */
  ghost predicate Leaked(objs: Store, v: View, a: nat) {
    a in objs && forall p :: !Owns(objs, v, p, a)
  }

  lemma OwnedAt(objs: Store, v: View, p: Path, a: nat) returns (i: nat)
    requires Owns(objs, v, p, a)
    ensures i < |Owned(objs, v, p)| && Owned(objs, v, p)[i] == a
  {
    hide EntryAt, FileAt;
    i :| 0 <= i < |Owned(objs, v, p)| && Owned(objs, v, p)[i] == a;
  }

  lemma OneOwner(objs: Store, live: map<nat, nat>, root: nat, v: View, p: Path, q: Path, a: nat)
    requires Inv(objs, live, root, v) && Owns(objs, v, p, a) && Owns(objs, v, q, a)
    ensures p == q
  {
    hide EntryAt, FileAt, StoreOk, Shape;
    var i := OwnedAt(objs, v, p, a);
    var j := OwnedAt(objs, v, q, a);
    if p != q {
      Separation(objs, live, root, v, p, i, q, j);
    }
  }

  lemma OwnedIsRecord(objs: Store, v: View, p: Path, a: nat)
    requires TreeOk(v.tree) && Owns(objs, v, p, a)
    ensures a in objs
  {
    hide EntryAt, FileAt, TreeOk;
    var i := OwnedAt(objs, v, p, a);
    OwnedRole(objs, v, p, i);
  }

  /** What a node owns depends on its record, on its data record, and on its chain. */
  lemma SameOwned(objs: Store, v: View, objs': Store, v': View, q: Path)
    requires q in v.tree && NodeAt(objs, v, q) && q in v'.tree && NodeAt(objs', v', q)
    requires v.tree[q].Dir? <==> v'.tree[q].Dir?
    requires v'.at[q] == v.at[q] && (v.tree[q].Dir? ==> v'.chain[q] == v.chain[q])
    requires objs'[v.at[q]].ptr == objs[v.at[q]].ptr
    requires var ptr := objs[v.at[q]].ptr;
             v.tree[q].File? && ptr != NULL ==> objs'[ptr].data == objs[ptr].data
    ensures Owned(objs', v', q) == Owned(objs, v, q)
  {
    hide EntryAt;
  }

  // ---- A new entry --------------------------------------------------------------

  lemma LinkOwners(objs: Store, v: View, p: Path, x: string, content: Content, objs': Store, v': View, n: nat, e: nat,
                   q: Path)
    requires IsDir(v.tree, p) && NodeAt(objs, v, p) && In(p, x) !in v.tree && q in v.tree && NodeAt(objs, v, q)
    requires Linked(objs, v, p, x, content, objs', v', n, e) && q in v'.tree && NodeAt(objs', v', q)
    ensures q != p ==> Owned(objs', v', q) == Owned(objs, v, q)
    ensures q == p ==> Owned(objs', v', p) == [v.at[p], objs[v.at[p]].ptr] + ([e] + v.chain[p])
  {
    hide EntryAt;
    if q != p {
      SameOwned(objs, v, objs', v', q);
    }
  }

  /** The owners before and after: the new node at `c`, and entry `e` in the chain of `p`. */
  ghost predicate OneMore(objs: Store, v: View, p: Path, c: Path, objs': Store, v': View, e: nat) {
    && p in v.tree && c !in v.tree && v'.tree.Keys == v.tree.Keys + {c}
    && forall q, a :: q in v.tree ==> (Owns(objs', v', q, a) <==> Owns(objs, v, q, a) || (q == p && a == e))
  }

  /** The same records are leaked before and after. */
  ghost predicate LeaksStay(objs: Store, v: View, objs': Store, v': View) {
    forall a :: Leaked(objs', v', a) <==> Leaked(objs, v, a)
  }

  lemma OwnersAreNodes(objs: Store, v: View)
    ensures forall q, a :: Owns(objs, v, q, a) ==> q in v.tree
  {
    hide NodeAt;
  }

  lemma OneMoreLeaksNothing(objs: Store, v: View, p: Path, c: Path, objs': Store, v': View, e: nat, more: set<nat>)
    requires OneMore(objs, v, p, c, objs', v', e)
    requires objs'.Keys == objs.Keys + {e} + more && e !in objs && more !! objs.Keys
    requires forall a :: Owns(objs', v', c, a) <==> a in more
    ensures LeaksStay(objs, v, objs', v')
  {
    OwnersAreNodes(objs, v);
    OwnersAreNodes(objs', v');
    hide Owns;
    assert Owns(objs', v', p, e);
    forall a ensures Leaked(objs', v', a) <==> Leaked(objs, v, a) {
      if Leaked(objs', v', a) {
        assert !Owns(objs', v', c, a) && !Owns(objs', v', p, a);
        forall q ensures !Owns(objs, v, q, a) {
          assert !Owns(objs', v', q, a);
        }
      }
      if Leaked(objs, v, a) {
        forall q ensures !Owns(objs', v', q, a) {
          assert !Owns(objs, v, q, a);
        }
      }
    }
  }

  lemma LinkedTree(objs: Store, v: View, p: Path, x: string, content: Content, objs': Store, v': View, n: nat, e: nat)
    requires IsDir(v.tree, p) && NodeAt(objs, v, p) && Linked(objs, v, p, x, content, objs', v', n, e)
    ensures v'.tree.Keys == v.tree.Keys + {In(p, x)}
  {
    hide EntryAt;
  }

  lemma LinkIsOneMore(objs: Store, root: nat, v: View, p: Path, x: string, content: Content, objs': Store, v': View,
                      n: nat, e: nat)
    requires LinkReady(objs, root, v, p, x) && Shape(objs', root, v') && NodeAt(objs, v, p)
    requires Linked(objs, v, p, x, content, objs', v', n, e)
    ensures OneMore(objs, v, p, In(p, x), objs', v', e)
  {
    hide EntryAt, FileAt, DirAt, Owns, NodeAt;
    LinkedTree(objs, v, p, x, content, objs', v', n, e);
    hide Linked, Shape;
    forall q, a | q in v.tree ensures Owns(objs', v', q, a) <==> Owns(objs, v, q, a) || (q == p && a == e) {
      LinkOwnersOf(objs, root, v, p, x, content, objs', v', n, e, q, a);
    }
  }

  lemma LinkOwnersOf(objs: Store, root: nat, v: View, p: Path, x: string, content: Content,
                     objs': Store, v': View, n: nat, e: nat, q: Path, a: nat)
    requires LinkReady(objs, root, v, p, x) && Shape(objs', root, v') && NodeAt(objs, v, p)
    requires Linked(objs, v, p, x, content, objs', v', n, e) && q in v.tree
    ensures Owns(objs', v', q, a) <==> Owns(objs, v, q, a) || (q == p && a == e)
  {
    hide EntryAt, FileAt, Linked;
    LinkedTree(objs, v, p, x, content, objs', v', n, e);
    ShapeAt(objs, root, v, q);
    ShapeAt(objs', root, v', q);
    hide Shape;
    LinkOwners(objs, v, p, x, content, objs', v', n, e, q);
    if q == p {
      assert Owned(objs, v, p) == [v.at[p], objs[v.at[p]].ptr] + v.chain[p];
    }
  }

  lemma NewFileOwns(objs: Store, v: View, c: Path, n: nat, a: nat)
    requires c in v.tree && v.tree[c] == File([]) && NodeAt(objs, v, c) && v.at[c] == n && objs[n].ptr == NULL
    ensures Owns(objs, v, c, a) <==> a == n
  {
  }

  lemma NewDirOwns(objs: Store, v: View, c: Path, n: nat, a: nat)
    requires c in v.tree && v.tree[c] == Dir([]) && NodeAt(objs, v, c) && v.at[c] == n
    ensures Owns(objs, v, c, a) <==> a == n || a == objs[n].ptr
  {
  }

  /** What linking a fresh record `n`, together with the fresh records `more`, does to the owners. */
  ghost predicate OwnedByNew(objs: Store, v: View, p: Path, x: string, objs': Store, v': View, e: nat, more: set<nat>) {
    && OneMore(objs, v, p, In(p, x), objs', v', e)
    && objs'.Keys == objs.Keys + {e} + more && e !in objs && more !! objs.Keys
    && forall a :: Owns(objs', v', In(p, x), a) <==> a in more
  }

  lemma FileStoreKeys(objs: Store, d: nat, x: string, inode: u32, n: nat, e: nat)
    requires d in objs && objs[d].DirStruct? && n != d
    ensures FileStore(objs, d, x, inode, n, e).Keys == objs.Keys + {e} + {n}
  {
  }

  lemma DirStoreKeys(objs: Store, d: nat, x: string, inode: u32, n: nat, ds: nat, parent: nat, e: nat)
    requires d in objs && objs[d].DirStruct? && n != d && ds != d
    ensures DirStore(objs, d, x, inode, n, ds, parent, e).Keys == objs.Keys + {e} + {n, ds}
  {
  }

  lemma FileStoreOwns(objs: Store, v: View, p: Path, x: string, inode: u32, n: nat, e: nat, a: nat)
    requires IsDir(v.tree, p) && NodeAt(objs, v, p) && In(p, x) !in v.at
    requires n !in objs && e !in objs && n != e && n != NULL && e != NULL
    ensures var (store, view) := (FileStore(objs, StructOf(objs, v, p), x, inode, n, e),
                                  LinkView(v, p, x, File([]), n, NULL, e));
            Owns(store, view, In(p, x), a) <==> a == n
  {
    hide EntryAt, FileAt;
    FileIsLinked(objs, v, p, x, inode, n, e);
    hide Linked;
    NewFileOwns(FileStore(objs, StructOf(objs, v, p), x, inode, n, e), LinkView(v, p, x, File([]), n, NULL, e),
                In(p, x), n, a);
  }

  lemma DirStoreOwns(objs: Store, v: View, p: Path, x: string, inode: u32, n: nat, ds: nat, e: nat, a: nat)
    requires IsDir(v.tree, p) && NodeAt(objs, v, p) && In(p, x) !in v.at
    requires n !in objs && e !in objs && ds !in objs && n != e && n != ds && e != ds && n != NULL && e != NULL
             && ds != NULL
    ensures Owns(DirStore(objs, StructOf(objs, v, p), x, inode, n, ds, v.at[p], e),
                 LinkView(v, p, x, Dir([]), n, ds, e), In(p, x), a)
            <==> a == n || a == ds
  {
    hide EntryAt, FileAt;
    DirIsLinked(objs, v, p, x, inode, n, ds, e);
    hide Linked;
    NewDirOwns(DirStore(objs, StructOf(objs, v, p), x, inode, n, ds, v.at[p], e), LinkView(v, p, x, Dir([]), n, ds, e),
               In(p, x), n, a);
  }

  lemma LinkFree(objs: Store, root: nat, v: View, p: Path, x: string)
    requires LinkReady(objs, root, v, p, x) && NodeAt(objs, v, p)
    ensures IsDir(v.tree, p) && In(p, x) !in v.at && p in v.at && v.at[p] in objs && objs[v.at[p]].Node?
    ensures var d := StructOf(objs, v, p); d in objs && objs[d].DirStruct?
  {
    hide EntryAt;
  }

  lemma NewFileIsOwned(objs: Store, root: nat, v: View, p: Path, x: string, inode: u32, n: nat, e: nat, objs': Store,
                       v': View)
    requires LinkReady(objs, root, v, p, x) && NodeAt(objs, v, p)
    requires n !in objs && e !in objs && n != e && n != NULL && e != NULL
    requires objs' == FileStore(objs, StructOf(objs, v, p), x, inode, n, e)
             && v' == LinkView(v, p, x, File([]), n, NULL, e)
    requires Shape(objs', root, v')
    ensures OwnedByNew(objs, v, p, x, objs', v', e, {n})
  {
    hide NodeAt, LinkReady, Shape, Owned, Owns, OneMore, FileStore, LinkView, Linked;
    LinkFree(objs, root, v, p, x);
    FileIsLinked(objs, v, p, x, inode, n, e);
    LinkIsOneMore(objs, root, v, p, x, File([]), objs', v', n, e);
    FileStoreKeys(objs, StructOf(objs, v, p), x, inode, n, e);
    forall a ensures Owns(objs', v', In(p, x), a) <==> a in {n} {
      FileStoreOwns(objs, v, p, x, inode, n, e, a);
    }
  }

  lemma NewDirIsOwned(objs: Store, root: nat, v: View, p: Path, x: string, inode: u32, n: nat, ds: nat, e: nat,
                      objs': Store, v': View)
    requires LinkReady(objs, root, v, p, x) && NodeAt(objs, v, p)
    requires n !in objs && e !in objs && ds !in objs && n != e && n != ds && e != ds && n != NULL && e != NULL
             && ds != NULL
    requires objs' == DirStore(objs, StructOf(objs, v, p), x, inode, n, ds, v.at[p], e)
             && v' == LinkView(v, p, x, Dir([]), n, ds, e)
    requires Shape(objs', root, v')
    ensures OwnedByNew(objs, v, p, x, objs', v', e, {n, ds})
  {
    hide NodeAt, LinkReady, Shape, Owned, Owns, OneMore, DirStore, LinkView, Linked;
    LinkFree(objs, root, v, p, x);
    DirIsLinked(objs, v, p, x, inode, n, ds, e);
    LinkIsOneMore(objs, root, v, p, x, Dir([]), objs', v', n, e);
    DirStoreKeys(objs, StructOf(objs, v, p), x, inode, n, ds, v.at[p], e);
    forall a ensures Owns(objs', v', In(p, x), a) <==> a in {n, ds} {
      DirStoreOwns(objs, v, p, x, inode, n, ds, e, a);
    }
  }

  /** A new file leaks nothing. */
  lemma FileLeaksNothing(objs: Store, root: nat, v: View, bs: seq<Block>, inode: u32, p: Path, x: string,
                         objs': Store, v': View, bs': seq<Block>)
    requires Tiled(bs) && StoreOk(objs, Live(bs)) && LinkReady(objs, root, v, p, x)
    requires FileCreated(objs, v, bs, inode, p, x, objs', v', bs')
    ensures Inv(objs', Live(bs'), root, v') && LeaksStay(objs, v, objs', v')
  {
    var g := FileGrants(bs).value;
    ShapeAt(objs, root, v, p);
    hide Tiled, Malloc, Live, LeaksStay, Shape, StoreOk, NodeAt, FileStore, LinkView, FileGrants;
    FileGranted(bs, objs);
    FileMade(bs, objs, root, v, p, x, inode);
    NewFileIsOwned(objs, root, v, p, x, inode, g.node, g.entry, objs', v');
    OneMoreLeaksNothing(objs, v, p, In(p, x), objs', v', g.entry, {g.node});
  }

  lemma FileGranted(bs: seq<Block>, objs: Store)
    requires Tiled(bs) && StoreOk(objs, Live(bs)) && FileGrants(bs).Some?
    ensures var g := FileGrants(bs).value;
            && g.node != NULL && g.entry != NULL && g.node !in objs && g.entry !in objs && g.node != g.entry
  {
    hide Malloc, Live, TiledFrom;
    var b := Malloc(bs, RoundUp(NODE_SIZE)).blocks;
    GrantIsFresh(bs, objs, NODE_SIZE);
    RoundUpAligned(ENTRY_SIZE);
    MallocTiles(b, RoundUp(ENTRY_SIZE), HEAP_START);
    MallocLive(b, RoundUp(ENTRY_SIZE), HEAP_START);
  }

  /** Nor does a new directory. */
  lemma DirLeaksNothing(objs: Store, root: nat, v: View, bs: seq<Block>, inode: u32, p: Path, x: string,
                        objs': Store, v': View, bs': seq<Block>)
    requires Tiled(bs) && StoreOk(objs, Live(bs)) && LinkReady(objs, root, v, p, x)
    requires DirCreated(objs, v, bs, inode, p, x, objs', v', bs')
    ensures Inv(objs', Live(bs'), root, v') && LeaksStay(objs, v, objs', v')
  {
    var g := DirGrants(bs).value;
    ShapeAt(objs, root, v, p);
    hide Tiled, Malloc, Live, LeaksStay, Shape, StoreOk, NodeAt, DirStore, LinkView, DirGrants;
    DirGranted(bs, objs);
    DirMade(bs, objs, root, v, p, x, inode);
    NewDirIsOwned(objs, root, v, p, x, inode, g.node, g.struct, g.entry, objs', v');
    OneMoreLeaksNothing(objs, v, p, In(p, x), objs', v', g.entry, {g.node, g.struct});
  }

  // ---- A write ------------------------------------------------------------------

  /** Both stores have the same records outside `mine`, and file `p` owns what there is of `mine` and nothing else. */
  ghost predicate OnlyOwns(objs: Store, v: View, p: Path, mine: set<nat>) {
    forall a :: Owns(objs, v, p, a) <==> a in mine && a in objs
  }

  lemma OthersKeepOwned(objs: Store, live: map<nat, nat>, root: nat, v: View, p: Path, objs': Store, v': View,
                        mine: set<nat>, q: Path)
    requires Inv(objs, live, root, v) && Shape(objs', root, v') && p in v.tree && q in v.tree && q != p
    requires p in v'.tree && v'.tree == v.tree[p := v'.tree[p]] && v'.at == v.at && v'.chain == v.chain
    requires SameBut(objs, objs', mine) && OnlyOwns(objs, v, p, mine)
    ensures NodeAt(objs, v, q) && NodeAt(objs', v', q) && Owned(objs', v', q) == Owned(objs, v, q)
  {
    ShapeAt(objs, root, v, q);
    ShapeAt(objs', root, v', q);
    hide EntryAt, Shape, StoreOk, Owns, Owned;
    OwnsItself(objs, v, q);
    var (n, ptr) := (v.at[q], objs[v.at[q]].ptr);
    if n in mine {
      OneOwner(objs, live, root, v, p, q, n);
    }
    if v.tree[q].File? && ptr != NULL && ptr in mine {
      OneOwner(objs, live, root, v, p, q, ptr);
    }
    SameOwned(objs, v, objs', v', q);
  }

  lemma OwnsItself(objs: Store, v: View, q: Path)
    requires q in v.tree && NodeAt(objs, v, q)
    ensures Owns(objs, v, q, v.at[q])
    ensures v.tree[q].File? && objs[v.at[q]].ptr != NULL ==> Owns(objs, v, q, objs[v.at[q]].ptr)
  {
    hide EntryAt;
    assert Owned(objs, v, q)[0] == v.at[q];
    if v.tree[q].File? && objs[v.at[q]].ptr != NULL {
      assert Owned(objs, v, q)[1] == objs[v.at[q]].ptr;
    }
  }

  lemma OnlyFileLeaksNothing(objs: Store, live: map<nat, nat>, root: nat, v: View, p: Path, objs': Store, v': View,
                             mine: set<nat>)
    requires Inv(objs, live, root, v) && Shape(objs', root, v') && p in v.tree
    requires p in v'.tree && v'.tree == v.tree[p := v'.tree[p]] && v'.at == v.at && v'.chain == v.chain
    requires SameBut(objs, objs', mine) && OnlyOwns(objs, v, p, mine) && OnlyOwns(objs', v', p, mine)
    ensures LeaksStay(objs, v, objs', v')
  {
    hide NodeAt, Shape, StoreOk, Owned;
    forall q, a | q != p ensures Owns(objs', v', q, a) <==> Owns(objs, v, q, a) {
      if q in v.tree {
        OthersKeepOwned(objs, live, root, v, p, objs', v', mine, q);
      }
    }
    hide Owns;
    forall a ensures Leaked(objs', v', a) <==> Leaked(objs, v, a) {
      if Leaked(objs, v, a) {
        assert !Owns(objs, v, p, a);
        forall q ensures !Owns(objs', v', q, a) {
          assert !Owns(objs, v, q, a);
        }
      }
      if Leaked(objs', v', a) {
        assert !Owns(objs', v', p, a);
        forall q ensures !Owns(objs, v, q, a) {
          assert !Owns(objs', v', q, a);
        }
      }
    }
  }

  /** The records that a write touches. */
  function Mine(objs: Store, bs: seq<Block>, node: nat, end: nat): set<nat>
    requires WriteFits(objs, node, end, bs)
  {
    var fd := objs[node].ptr;
    if fd == NULL then
      var g := DataGrants(bs, FirstCapacity(end)).value;
      {node, g.fd, g.data}
    else {node, fd, objs[fd].data, BufferAfter(bs, objs[fd].capacity, end, objs[fd].data)}
  }

  lemma FileOwns(objs: Store, v: View, p: Path, a: nat)
    requires p in v.tree && v.tree[p].File? && NodeAt(objs, v, p)
    ensures var ptr := objs[v.at[p]].ptr;
            Owns(objs, v, p, a) <==> a == v.at[p] || (ptr != NULL && (a == ptr || a == objs[ptr].data))
  {
  }

  lemma BufferIsNew(bs: seq<Block>, objs: Store, fd: nat, end: nat)
    requires Tiled(bs) && StoreOk(objs, Live(bs)) && DataOk(objs, fd) && end <= 0x8000_0000
    requires ResizeFits(bs, objs[fd].capacity, end) && end > objs[fd].capacity
    ensures BufferAfter(bs, objs[fd].capacity, end, objs[fd].data) !in objs
  {
    hide Tiled, Malloc, Live;
    CapacityFits(bs, objs, fd);
    GrownFits(objs[fd].capacity, end);
    GrantIsFresh(bs, objs, Grown(objs[fd].capacity, end));
  }

  lemma WriterOwns(objs: Store, root: nat, v: View, bs: seq<Block>, p: Path, end: nat)
    requires Tiled(bs) && Inv(objs, Live(bs), root, v) && p in v.tree && v.tree[p].File? && p in v.at
    requires WriteFits(objs, v.at[p], end, bs) && end <= 0x8000_0000
    ensures OnlyOwns(objs, v, p, Mine(objs, bs, v.at[p], end))
  {
    ShapeAt(objs, root, v, p);
    FileRecord(objs, Live(bs), root, v, p);
    hide Shape, Tiled, Live, DataGrants, BufferAfter, ResizeFits, NodeAt, Owns;
    var ptr := objs[v.at[p]].ptr;
    if ptr == NULL {
      DataGranted(bs, objs, FirstCapacity(end));
    } else if end > objs[ptr].capacity {
      BufferIsNew(bs, objs, ptr, end);
    } else {
      BufferStays(bs, objs[ptr].capacity, end, objs[ptr].data);
    }
    forall a ensures Owns(objs, v, p, a) <==> a in Mine(objs, bs, v.at[p], end) && a in objs {
      FileOwns(objs, v, p, a);
    }
  }

  lemma BufferStays(bs: seq<Block>, capacity: nat, end: nat, data: nat)
    requires 0 < capacity && end <= capacity
    ensures ResizeFits(bs, capacity, end) && BufferAfter(bs, capacity, end, data) == data
  {
  }

  lemma WriterOwnsAfter(objs: Store, bs: seq<Block>, node: nat, end: nat, root: nat, objs': Store, v': View, p: Path)
    requires Shape(objs', root, v') && p in v'.tree && v'.tree[p].File? && p in v'.at && v'.at[p] == node
    requires WriteFits(objs, node, end, bs) && DataStays(objs, bs, node, end, objs')
    ensures SameBut(objs, objs', Mine(objs, bs, node, end))
    ensures NULL !in objs' ==> OnlyOwns(objs', v', p, Mine(objs, bs, node, end))
  {
    ShapeAt(objs', root, v', p);
    hide Shape, DataGrants, BufferAfter, ResizeFits, NodeAt, Owns, AfterWrite, Meter, Grown;
    if objs[node].ptr != NULL && end <= objs[objs[node].ptr].capacity {
      BufferStays(bs, objs[objs[node].ptr].capacity, end, objs[objs[node].ptr].data);
    }
    forall a ensures NULL !in objs' ==> (Owns(objs', v', p, a) <==> a in Mine(objs, bs, node, end) && a in objs') {
      FileOwns(objs', v', p, a);
    }
  }

  /** A write leaks nothing: the buffer it replaces is freed. */
  lemma WriteLeaksNothing(objs: Store, root: nat, v: View, bs: seq<Block>, p: Path, offset: nat, data: seq<byte>,
                          objs': Store, v': View, bs': seq<Block>)
    requires Tiled(bs) && Inv(objs, Live(bs), root, v) && Inv(objs', Live(bs'), root, v')
             && offset + |data| <= 0x8000_0000
    requires p in v.at && Wrote(objs, bs, v, v.at[p], p, offset, data, objs', bs', v')
    ensures LeaksStay(objs, v, objs', v')
  {
    hide Tiled, Live, Shape, DataStays, WriteFits, LeaksStay, Mine, Written;
    WriterOwns(objs, root, v, bs, p, offset + |data|);
    WriterOwnsAfter(objs, bs, v.at[p], offset + |data|, root, objs', v', p);
    OnlyFileLeaksNothing(objs, Live(bs), root, v, p, objs', v', Mine(objs, bs, v.at[p], offset + |data|));
  }

  // ---- A delete -----------------------------------------------------------------

  lemma RemoveAtKeeps(chain: seq<nat>, i: nat, a: nat)
    requires i < |chain| && Distinct(chain)
    ensures a in RemoveAt(chain, i) <==> a in chain && a != chain[i]
  {
    if a in chain && a != chain[i] {
      var j :| 0 <= j < |chain| && chain[j] == a;
      assert RemoveAt(chain, i)[if j < i then j else j - 1] == a;
    }
  }

  lemma ChainIsDistinct(objs: Store, v: View, p: Path)
    requires IsDir(v.tree, p) && NodeAt(objs, v, p) && Distinct(v.tree[p].names)
    ensures Distinct(v.chain[p])
  {
    var (names, chain) := (v.tree[p].names, v.chain[p]);
    forall i, j | 0 <= i < j < |chain| ensures chain[i] != chain[j] {
      assert EntryAt(objs, v, p, names, i) && EntryAt(objs, v, p, names, j);
    }
  }

  /** The entry that goes. */
  function EntryOut(v: View, p: Path, x: string): nat
    requires IsDir(v.tree, p) && x in v.tree[p].names && p in v.chain && |v.chain[p]| == |v.tree[p].names|
  {
    v.chain[p][IndexOf(v.tree[p].names, x)]
  }

  /** A delete frees what the node owns, and its entry. */
  lemma DeletedKeys(objs: Store, v: View, p: Path, x: string, a: nat)
    requires CanGo(objs, v, p, x)
    ensures a in AfterDelete(objs, v, p, x) <==> a in objs && a !in Owned(objs, v, In(p, x)) && a != EntryOut(v, p, x)
  {
    hide EntryAt, FileAt;
    var c := In(p, x);
    assert a in Owned(objs, v, c) <==> a in Behind(objs, v, c) || a == v.at[c];
  }

  lemma DeletedKeeps(objs: Store, v: View, p: Path, x: string, a: nat)
    requires CanGo(objs, v, p, x) && a in AfterDelete(objs, v, p, x)
    ensures a in objs && (objs[a].Node? || objs[a].FileData? ==> AfterDelete(objs, v, p, x)[a] == objs[a])
  {
    hide EntryAt, FileAt, DirAt, Behind;
  }

  lemma DeleteOwners(objs: Store, v: View, p: Path, x: string, objs': Store, v': View, q: Path, a: nat)
    requires CanGo(objs, v, p, x) && objs' == AfterDelete(objs, v, p, x) && v' == UnlinkView(v, p, x)
    requires q in v.tree && !Under(In(p, x), q) && NodeAt(objs, v, q) && NodeAt(objs', v', q)
    ensures Owns(objs', v', q, a) <==> Owns(objs, v, q, a) && !(q == p && a == EntryOut(v, p, x))
  {
    ChainIsDistinct(objs, v, p);
    RemoveAtKeeps(v.chain[p], IndexOf(v.tree[p].names, x), a);
    hide EntryAt, CanGo, AfterDelete, Behind, RemoveAt;
    DeletedKeeps(objs, v, p, x, v.at[q]);
    if q == p {
      EntryIsNoNode(objs, v, p, x);
      assert Owned(objs, v, p) == [v.at[p], objs[v.at[p]].ptr] + v.chain[p];
      assert Owned(objs', v', p) == [v.at[p], objs[v.at[p]].ptr] + v'.chain[p];
    } else {
      var ptr := objs[v.at[q]].ptr;
      if v.tree[q].File? && ptr != NULL {
        DeletedKeeps(objs, v, p, x, ptr);
      }
      SameOwned(objs, v, objs', v', q);
    }
  }

  lemma EntryIsNoNode(objs: Store, v: View, p: Path, x: string)
    requires CanGo(objs, v, p, x)
    ensures EntryOut(v, p, x) != v.at[p] && EntryOut(v, p, x) != objs[v.at[p]].ptr
  {
    assert EntryAt(objs, v, p, v.tree[p].names, IndexOf(v.tree[p].names, x));
  }

  /** Owned by a node strictly below `c`. */
  ghost predicate Below(objs: Store, v: View, c: Path, a: nat) {
    exists q :: Under(c, q) && q != c && Owns(objs, v, q, a)
  }

  /** The owners before and after: the nodes under `c` are gone, and entry `e` is out of the chain of `p`. */
  ghost predicate OneLess(objs: Store, v: View, p: Path, c: Path, objs': Store, v': View, e: nat) {
    && (forall q :: q in v'.tree <==> q in v.tree && !Under(c, q))
    && (forall q, a :: q in v.tree && !Under(c, q) ==>
          (Owns(objs', v', q, a) <==> Owns(objs, v, q, a) && !(q == p && a == e)))
    && (forall a :: a in objs' <==> a in objs && !Owns(objs, v, c, a) && a != e)
  }

  /** Every record has at most one owner. */
  ghost predicate OwnersUnique(objs: Store, v: View) {
    && (forall q, a :: Owns(objs, v, q, a) ==> q in v.tree && a in objs)
    && (forall q, r, a :: Owns(objs, v, q, a) && Owns(objs, v, r, a) ==> q == r)
  }

  lemma OwnersAreUnique(objs: Store, live: map<nat, nat>, root: nat, v: View)
    requires Inv(objs, live, root, v)
    ensures OwnersUnique(objs, v)
  {
    hide Owns, Inv;
    OwnersAreNodes(objs, v);
    forall q, a | Owns(objs, v, q, a) ensures a in objs {
      TreeIsOk(objs, live, root, v);
      OwnedIsRecord(objs, v, q, a);
    }
    forall q, r, a | Owns(objs, v, q, a) && Owns(objs, v, r, a) ensures q == r {
      OneOwner(objs, live, root, v, q, r, a);
    }
  }

  lemma TreeIsOk(objs: Store, live: map<nat, nat>, root: nat, v: View)
    requires Inv(objs, live, root, v)
    ensures TreeOk(v.tree)
  {
    hide NodeAt, TreeOk;
  }

  lemma OneLessLeaks(objs: Store, v: View, p: Path, c: Path, objs': Store, v': View, e: nat, a: nat)
    requires OneLess(objs, v, p, c, objs', v', e) && OwnersUnique(objs, v) && Owns(objs, v, p, e) && c in v.tree
             && !Under(c, p)
    ensures Leaked(objs', v', a) <==> Leaked(objs, v, a) || Below(objs, v, c, a)
  {
    hide Owns, Under;
    OwnersAreNodes(objs', v');
    if Leaked(objs', v', a) && !Leaked(objs, v, a) {
      var q :| Owns(objs, v, q, a);
      assert !Owns(objs', v', q, a);
      assert Under(c, q);
    }
    if Below(objs, v, c, a) {
      var q :| Under(c, q) && q != c && Owns(objs, v, q, a);
      forall r ensures !Owns(objs', v', r, a) {
      }
    }
    if Leaked(objs, v, a) {
      forall r ensures !Owns(objs', v', r, a) {
        assert !Owns(objs, v, r, a);
      }
    }
  }

  lemma DeleteOwnersOf(objs: Store, root: nat, v: View, p: Path, x: string, objs': Store, v': View, q: Path, a: nat)
    requires Shape(objs, root, v) && CanGo(objs, v, p, x) && objs' == AfterDelete(objs, v, p, x)
             && v' == UnlinkView(v, p, x)
    requires Shape(objs', root, v') && q in v.tree && !Under(In(p, x), q)
    ensures Owns(objs', v', q, a) <==> Owns(objs, v, q, a) && !(q == p && a == EntryOut(v, p, x))
  {
    DeletedTree(objs, v, p, x);
    hide CanGo, AfterDelete, EntryAt, FileAt, UnlinkView, Owns;
    ShapeAt(objs, root, v, q);
    ShapeAt(objs', root, v', q);
    hide Shape;
    DeleteOwners(objs, v, p, x, objs', v', q, a);
  }

  lemma DeletedTree(objs: Store, v: View, p: Path, x: string)
    requires CanGo(objs, v, p, x)
    ensures var v' := UnlinkView(v, p, x);
            && (forall q :: q in v'.tree <==> q in v.tree && !Under(In(p, x), q))
            && In(p, x) in v.tree && NodeAt(objs, v, In(p, x)) && !Under(In(p, x), p)
  {
    SiblingNotUnder(p, x, x + "-");
    hide NodeAt, Behind, Under;
  }

  lemma DeletedKeysOf(objs: Store, v: View, p: Path, x: string, objs': Store, a: nat)
    requires CanGo(objs, v, p, x) && objs' == AfterDelete(objs, v, p, x)
    ensures a in objs' <==> a in objs && !Owns(objs, v, In(p, x), a) && a != EntryOut(v, p, x)
  {
    DeletedTree(objs, v, p, x);
    hide AfterDelete, NodeAt, UnlinkView, Under;
    DeletedKeys(objs, v, p, x, a);
  }

  lemma DeleteIsOneLess(objs: Store, root: nat, v: View, p: Path, x: string, objs': Store, v': View, c: Path, e: nat)
    requires Shape(objs, root, v) && CanGo(objs, v, p, x) && objs' == AfterDelete(objs, v, p, x)
             && v' == UnlinkView(v, p, x)
    requires c == In(p, x) && e == EntryOut(v, p, x)
    ensures OneLess(objs, v, p, c, objs', v', e) && Owns(objs, v, p, e) && c in v.tree && !Under(c, p)
  {
    hide CanGo, AfterDelete, Shape, UnlinkView, Owns, NodeAt, EntryOut, Under;
    DeleteDone(objs, root, v, p, x);
    DeletedTree(objs, v, p, x);
    OwnsEntry(objs, v, p, x);
    forall q, a | q in v.tree && !Under(c, q)
      ensures Owns(objs', v', q, a) <==> Owns(objs, v, q, a) && !(q == p && a == e)
    {
      DeleteOwnersOf(objs, root, v, p, x, objs', v', q, a);
    }
    forall a ensures a in objs' <==> a in objs && !Owns(objs, v, c, a) && a != e {
      DeletedKeysOf(objs, v, p, x, objs', a);
    }
  }

  lemma OwnsEntry(objs: Store, v: View, p: Path, x: string)
    requires CanGo(objs, v, p, x)
    ensures Owns(objs, v, p, EntryOut(v, p, x)) && In(p, x) in v.tree
  {
    hide EntryAt, FileAt, Behind;
    assert Owned(objs, v, p)[2 + IndexOf(v.tree[p].names, x)] == EntryOut(v, p, x);
  }

  /** A delete leaks exactly the records of the nodes below the one removed. */
  lemma DeleteLeaks(objs: Store, root: nat, v: View, bs: seq<Block>, p: Path, x: string, objs': Store, v': View,
                    bs': seq<Block>)
    requires Inv(objs, Live(bs), root, v) && Removed(objs, v, p, x, bs, objs', v', bs')
    ensures forall a :: Leaked(objs', v', a) <==> Leaked(objs, v, a) || Below(objs, v, In(p, x), a)
  {
    hide CanGo, AfterDelete, Shape, Leaked, Below, OneLess, OwnersUnique, Owns, Live, FreeAll, StoreOk;
    var (c, e) := (In(p, x), EntryOut(v, p, x));
    DeleteIsOneLess(objs, root, v, p, x, objs', v', c, e);
    OwnersAreUnique(objs, Live(bs), root, v);
    forall a ensures Leaked(objs', v', a) <==> Leaked(objs, v, a) || Below(objs, v, In(p, x), a) {
      OneLessLeaks(objs, v, p, c, objs', v', e, a);
    }
  }

  /** There are such records exactly if the node is a directory that lists a name. */
  lemma BelowIff(objs: Store, live: map<nat, nat>, root: nat, v: View, c: Path)
    requires Inv(objs, live, root, v) && c in v.tree
    ensures (exists a :: Below(objs, v, c, a)) <==> v.tree[c].Dir? && v.tree[c].names != []
  {
    hide NodeAt, Owned, StoreOk;
    if a :| Below(objs, v, c, a) {
      var q :| Under(c, q) && q != c && Owns(objs, v, q, a);
      ListsAbove(v.tree, c, q);
    }
    if v.tree[c].Dir? && v.tree[c].names != [] {
      var q := In(c, v.tree[c].names[0]);
      assert v.tree[c].names[0] in v.tree[c].names && q in v.tree;
      ShapeAt(objs, root, v, q);
      OwnsItself(objs, v, q);
      assert Under(c, c) && Under(c, q);
      assert Below(objs, v, c, v.at[q]);
    }
  }

  lemma {:induction false} ListsAbove(t: Tree, c: Path, q: Path)
    requires TreeOk(t) && q in t && Under(c, q) && q != c
    ensures IsDir(t, c) && t[c].names != []
  {
    if q.dir != c {
      ListsAbove(t, c, q.dir);
    }
  }

  // ---- Records and blocks ---------------------------------------------------------

  /** The live blocks are those of `base`, which others allocated, and one for each record. */
  ghost predicate Accounted(base: set<nat>, objs: Store, bs: seq<Block>) {
    Live(bs).Keys == base + objs.Keys && base !! objs.Keys
  }

  lemma GrantAdds(bs: seq<Block>, n: nat)
    requires Tiled(bs) && n % 4 == 0 && Malloc(bs, n).ptr != NULL
    ensures var g := Malloc(bs, n);
            Tiled(g.blocks) && g.ptr !in Live(bs) && Live(g.blocks).Keys == Live(bs).Keys + {g.ptr}
  {
    hide TiledFrom, Malloc, Live;
    MallocTiles(bs, n, HEAP_START);
    MallocLive(bs, n, HEAP_START);
  }

  lemma FileGrantsAdd(bs: seq<Block>)
    requires Tiled(bs) && FileGrants(bs).Some?
    ensures var g := FileGrants(bs).value;
            && Tiled(g.blocks) && g.node !in Live(bs) && g.entry !in Live(bs)
            && Live(g.blocks).Keys == Live(bs).Keys + {g.node, g.entry}
  {
    hide Tiled, Malloc, Live;
    RoundUpAligned(NODE_SIZE);
    RoundUpAligned(ENTRY_SIZE);
    GrantAdds(bs, RoundUp(NODE_SIZE));
    GrantAdds(Malloc(bs, RoundUp(NODE_SIZE)).blocks, RoundUp(ENTRY_SIZE));
  }

  lemma DirGrantsAdd(bs: seq<Block>)
    requires Tiled(bs) && DirGrants(bs).Some?
    ensures var g := DirGrants(bs).value;
            && Tiled(g.blocks) && g.node !in Live(bs) && g.struct !in Live(bs) && g.entry !in Live(bs)
            && Live(g.blocks).Keys == Live(bs).Keys + {g.node, g.struct, g.entry}
  {
    hide Tiled, Malloc, Live;
    RoundUpAligned(NODE_SIZE);
    RoundUpAligned(DIR_SIZE);
    RoundUpAligned(ENTRY_SIZE);
    var n := Malloc(bs, RoundUp(NODE_SIZE)).blocks;
    GrantAdds(bs, RoundUp(NODE_SIZE));
    GrantAdds(n, RoundUp(DIR_SIZE));
    GrantAdds(Malloc(n, RoundUp(DIR_SIZE)).blocks, RoundUp(ENTRY_SIZE));
  }

  lemma DataGrantsAdd(bs: seq<Block>, capacity: nat)
    requires Tiled(bs) && capacity < U32_LIMIT && DataGrants(bs, capacity).Some?
    ensures var g := DataGrants(bs, capacity).value;
            && Tiled(g.blocks) && g.fd !in Live(bs) && g.data !in Live(bs)
            && Live(g.blocks).Keys == Live(bs).Keys + {g.fd, g.data}
  {
    hide Tiled, Malloc, Live;
    RoundUpAligned(DATA_SIZE);
    RoundUpAligned(capacity);
    GrantAdds(bs, RoundUp(DATA_SIZE));
    GrantAdds(Malloc(bs, RoundUp(DATA_SIZE)).blocks, RoundUp(capacity));
  }

  lemma FreeTakes(bs: seq<Block>, p: nat)
    requires Tiled(bs) && p in Live(bs)
    ensures Tiled(Free(bs, p)) && Live(Free(bs, p)).Keys == Live(bs).Keys - {p}
  {
    hide TiledFrom, Free, Live;
    FreeTiles(bs, p, HEAP_START);
    FreeLive(bs, p, HEAP_START);
  }

  lemma {:induction false} FreeAllTakes(bs: seq<Block>, ptrs: seq<nat>)
    requires Tiled(bs) && Distinct(ptrs) && forall a :: a in ptrs ==> a in Live(bs)
    ensures Tiled(FreeAll(bs, ptrs)) && forall a :: a in Live(FreeAll(bs, ptrs)) <==> a in Live(bs) && a !in ptrs
  {
    hide Tiled, Free, Live;
    if ptrs != [] {
      var (front, last) := (ptrs[..|ptrs| - 1], ptrs[|ptrs| - 1]);
      assert ptrs == front + [last];
      assert last !in front;
      FreeAllTakes(bs, front);
      FreeTakes(FreeAll(bs, front), last);
    }
  }

  lemma FileAccounted(base: set<nat>, objs: Store, v: View, bs: seq<Block>, inode: u32, p: Path, x: string,
                      objs': Store, v': View, bs': seq<Block>)
    requires Tiled(bs) && Accounted(base, objs, bs) && FileCreated(objs, v, bs, inode, p, x, objs', v', bs')
    ensures Accounted(base, objs', bs')
  {
    hide Tiled, Malloc, Live, FileGrants, LinkView, FileStore;
    var g := FileGrants(bs).value;
    FileGrantsAdd(bs);
    FileStoreKeys(objs, StructOf(objs, v, p), x, inode, g.node, g.entry);
  }

  lemma DirAccounted(base: set<nat>, objs: Store, v: View, bs: seq<Block>, inode: u32, p: Path, x: string,
                     objs': Store, v': View, bs': seq<Block>)
    requires Tiled(bs) && Accounted(base, objs, bs) && DirCreated(objs, v, bs, inode, p, x, objs', v', bs')
    ensures Accounted(base, objs', bs')
  {
    hide Tiled, Malloc, Live, DirGrants, LinkView, DirStore;
    var g := DirGrants(bs).value;
    DirGrantsAdd(bs);
    DirStoreKeys(objs, StructOf(objs, v, p), x, inode, g.node, g.struct, v.at[p], g.entry);
  }

  lemma ResizeAccounted(base: set<nat>, objs: Store, bs: seq<Block>, node: nat, fd: nat, end: nat, objs': Store)
    requires Tiled(bs) && Accounted(base, objs, bs) && StoreOk(objs, Live(bs)) && DataOk(objs, fd) && end <= 0x8000_0000
    requires ResizeFits(bs, objs[fd].capacity, end) && node in objs && node in objs' && fd in objs'
    requires var (was, now) := (objs[fd].data, BufferAfter(bs, objs[fd].capacity, end, objs[fd].data));
             SameBut(objs, objs', {node, fd, was, now}) && now in objs' && (end > objs[fd].capacity ==> was !in objs')
    ensures Accounted(base, objs', ResizedHeap(bs, objs[fd].capacity, end, objs[fd].data))
  {
    hide Tiled, Malloc, Live, Free, Grown;
    var (capacity, was) := (objs[fd].capacity, objs[fd].data);
    if end > capacity {
      CapacityFits(bs, objs, fd);
      GrownFits(capacity, end);
      RoundUpAligned(Grown(capacity, end));
      var g := LargerBuffer(bs, capacity, end);
      GrantAdds(bs, RoundUp(Grown(capacity, end)));
      assert was in Live(bs) && was != g.ptr && was in Live(g.blocks);
      FreeTakes(g.blocks, was);
      forall a ensures a in objs' <==> (a in objs || a == g.ptr) && a != was {
      }
      assert objs'.Keys == objs.Keys + {g.ptr} - {was};
    } else {
      forall a ensures a in objs' <==> a in objs {
      }
      assert objs'.Keys == objs.Keys;
    }
  }

  lemma WriteAccounted(base: set<nat>, objs: Store, v: View, bs: seq<Block>, node: nat, p: Path, offset: nat,
                       data: seq<byte>, objs': Store, v': View, bs': seq<Block>)
    requires Tiled(bs) && Accounted(base, objs, bs) && StoreOk(objs, Live(bs)) && offset + |data| <= 0x8000_0000
    requires Wrote(objs, bs, v, node, p, offset, data, objs', bs', v')
    ensures Accounted(base, objs', bs')
  {
    hide Tiled, Malloc, Live, DataGrants, BufferAfter, ResizedHeap, ResizeFits, FileChanged;
    var (end, fd) := (offset + |data|, objs[node].ptr);
    if fd == NULL {
      DataGrantsAdd(bs, FirstCapacity(end));
      var g := DataGrants(bs, FirstCapacity(end)).value;
      assert objs'.Keys == objs.Keys + {g.fd, g.data};
    } else {
      ResizeAccounted(base, objs, bs, node, fd, end, objs');
    }
  }

  lemma FreedOnce(objs: Store, v: View, p: Path, x: string)
    requires CanGo(objs, v, p, x)
    ensures var freed := Freed(objs, v, p, IndexOf(v.tree[p].names, x));
            && Distinct(freed) && (forall a :: a in freed ==> a in objs)
            && forall a :: a in AfterDelete(objs, v, p, x) <==> a in objs && a !in freed
  {
    hide EntryAt, FileAt;
    var c := In(p, x);
    BehindDistinct(objs, v, c);
    forall a | a in Behind(objs, v, c) ensures a in objs {
      BehindRoles(objs, v, c, a);
    }
  }

  lemma DeleteAccounted(base: set<nat>, objs: Store, v: View, bs: seq<Block>, p: Path, x: string, objs': Store,
                        v': View, bs': seq<Block>)
    requires Tiled(bs) && Accounted(base, objs, bs) && Removed(objs, v, p, x, bs, objs', v', bs')
    ensures Accounted(base, objs', bs')
  {
    hide Tiled, Live, CanGo, AfterDelete, UnlinkView, FreeAll, Freed;
    FreedOnce(objs, v, p, x);
    FreeAllTakes(bs, Freed(objs, v, p, IndexOf(v.tree[p].names, x)));
  }

  // ---- Commands -------------------------------------------------------------------

  /** From one state to the next the same records are leaked, and each record still has its block. */
  ghost predicate KeepsAll(base: set<nat>, s: Snapshot, after: Snapshot) {
    && LeaksStay(s.objs, s.v, after.objs, after.v)
    && (Accounted(base, s.objs, s.blocks) ==> Accounted(base, after.objs, after.blocks))
  }

  lemma UnchangedKeeps(base: set<nat>, s: Snapshot, after: Snapshot)
    requires Unchanged(s, after)
    ensures KeepsAll(base, s, after)
  {
    hide Live, Leaked;
  }

  /** The directory of a command's target is ready for a new entry. */
  lemma TargetReady(s: Snapshot, root: nat, path: string)
    requires Sound(s, root) && Creatable(s.v.tree, path) && |FileName(path)| <= NAME_MAX
    ensures LinkReady(s.objs, root, s.v, Target(s.v.tree, path).value, FileName(path))
  {
    hide Shape, StoreOk;
  }

  lemma MakesFileKeeps(base: set<nat>, root: nat, s: Snapshot, path: string, ok: bool, after: Snapshot)
    requires Sound(s, root) && |FileName(path)| <= NAME_MAX && MakesFile(s, path, ok, after)
    ensures KeepsAll(base, s, after) && (ok ==> Sound(after, root))
  {
    hide LeaksStay, Accounted, Target, FileCreated, FileName, Shape, StoreOk, Tiled, Live;
    if ok {
      TargetReady(s, root, path);
      var (p, x) := (Target(s.v.tree, path).value, FileName(path));
      FileLeaksNothing(s.objs, root, s.v, s.blocks, s.inode, p, x, after.objs, after.v, after.blocks);
      FileGrantsAdd(s.blocks);
      FileCreatedBlocks(s.objs, s.v, s.blocks, s.inode, p, x, after.objs, after.v, after.blocks);
      if Accounted(base, s.objs, s.blocks) {
        FileAccounted(base, s.objs, s.v, s.blocks, s.inode, p, x, after.objs, after.v, after.blocks);
      }
    } else {
      UnchangedKeeps(base, s, after);
    }
  }

  lemma FileCreatedBlocks(objs: Store, v: View, bs: seq<Block>, inode: u32, p: Path, x: string, objs': Store, v': View,
                          bs': seq<Block>)
    requires FileCreated(objs, v, bs, inode, p, x, objs', v', bs')
    ensures bs' == FileGrants(bs).value.blocks
  {
    hide FileGrants;
  }

  lemma MakesDirKeeps(base: set<nat>, root: nat, s: Snapshot, path: string, ok: bool, after: Snapshot)
    requires Sound(s, root) && |FileName(path)| <= NAME_MAX && MakesDir(s, path, ok, after)
    ensures KeepsAll(base, s, after)
  {
    hide LeaksStay, Accounted, Target, DirCreated, FileName, Shape, StoreOk, Tiled, Live;
    if ok {
      TargetReady(s, root, path);
      var (p, x) := (Target(s.v.tree, path).value, FileName(path));
      DirLeaksNothing(s.objs, root, s.v, s.blocks, s.inode, p, x, after.objs, after.v, after.blocks);
      if Accounted(base, s.objs, s.blocks) {
        DirAccounted(base, s.objs, s.v, s.blocks, s.inode, p, x, after.objs, after.v, after.blocks);
      }
    } else {
      UnchangedKeeps(base, s, after);
    }
  }

  lemma WritesToKeeps(base: set<nat>, root: nat, s: Snapshot, q: Path, offset: nat, data: seq<byte>, ok: bool,
                      after: Snapshot)
    requires Sound(s, root) && Sound(after, root) && WritesTo(s, q, offset, data, ok, after)
             && offset + |data| <= 0x8000_0000
    ensures KeepsAll(base, s, after)
  {
    hide LeaksStay, Accounted, Wrote, Shape, StoreOk, Tiled, Live, WriteFits;
    if ok {
      WriteLeaksNothing(s.objs, root, s.v, s.blocks, q, offset, data, after.objs, after.v, after.blocks);
      if Accounted(base, s.objs, s.blocks) {
        WriteAccounted(base, s.objs, s.v, s.blocks, s.v.at[q], q, offset, data, after.objs, after.v, after.blocks);
      }
    } else {
      UnchangedKeeps(base, s, after);
    }
  }

  lemma KeepsThrough(base: set<nat>, s: Snapshot, mid: Snapshot, after: Snapshot)
    requires KeepsAll(base, s, mid) && KeepsAll(base, mid, after)
    ensures KeepsAll(base, s, after)
  {
    hide Leaked, Accounted;
    forall a ensures Leaked(after.objs, after.v, a) <==> Leaked(s.objs, s.v, a) {
      assert Leaked(mid.objs, mid.v, a) <==> Leaked(s.objs, s.v, a);
    }
  }

  lemma NothingKeeps(base: set<nat>, s: Snapshot)
    ensures KeepsAll(base, s, s)
  {
    hide Leaked, Accounted;
  }

  lemma WritesKeep(base: set<nat>, root: nat, s: Snapshot, path: string, data: seq<byte>, ok: bool, after: Snapshot)
    requires Sound(s, root) && Sound(after, root) && |FileName(path)| <= NAME_MAX && |data| <= 0x8000_0000
    requires Writes(s, path, data, ok, after)
    ensures KeepsAll(base, s, after)
  {
    hide KeepsAll, Sound, MakesFile, WritesTo, Resolved, Creatable, Unchanged, FileName;
    if OpenFits(s, path) {
      var q := Opened(s.v.tree, path).value.1;
      var mid :| Opens(s, path, true, mid) && WritesTo(mid, q, 0, data, ok, after);
      if Resolved(s.v.tree, path).Some? {
        NothingKeeps(base, s);
      } else {
        MakesFileKeeps(base, root, s, path, true, mid);
      }
      WritesToKeeps(base, root, mid, q, 0, data, ok, after);
      KeepsThrough(base, s, mid, after);
    } else {
      MakesFileKeeps(base, root, s, path, false, after);
    }
  }

  /** The node that a command removes, if it removes one. */
  function RemovedNode(t: Tree, c: Command): Option<Path> {
    if c.Remove? && Removable(t, c.path) then Some(In(Target(t, c.path).value, FileName(c.path))) else None
  }

  /** A record that a command cuts off from the tree without freeing it. */
  ghost predicate Orphaned(s: Snapshot, c: Command, a: nat) {
    var r := RemovedNode(s.v.tree, c);
    r.Some? && Below(s.objs, s.v, r.value, a)
  }

  /** What any command leaks: the records below a node it removes, and nothing else. */
  lemma EffectLeaks(root: nat, s: Snapshot, c: Command, o: Outcome, after: Snapshot)
    requires Sound(s, root) && Sound(after, root) && Wellformed(c) && Effect(s, c, o, after)
    ensures forall a :: Leaked(after.objs, after.v, a) <==> Leaked(s.objs, s.v, a) || Orphaned(s, c, a)
    ensures forall base :: Accounted(base, s.objs, s.blocks) ==> Accounted(base, after.objs, after.blocks)
  {
    hide Leaked, Below, Accounted, Removed, Deletable, Target, FileName, Inv, Tiled, MakesDir, MakesFile, Writes;
    forall base ensures Accounted(base, s.objs, s.blocks) ==> Accounted(base, after.objs, after.blocks) {
      EffectKeeps(base, root, s, c, o, after);
    }
    if c.Remove? && o.ok {
      DeleteLeaks(s.objs, root, s.v, s.blocks, Target(s.v.tree, c.path).value, FileName(c.path), after.objs, after.v,
                  after.blocks);
    } else {
      EffectKeeps({}, root, s, c, o, after);
    }
  }

  lemma EffectKeeps(base: set<nat>, root: nat, s: Snapshot, c: Command, o: Outcome, after: Snapshot)
    requires Sound(s, root) && Sound(after, root) && Wellformed(c) && Effect(s, c, o, after)
    ensures !(c.Remove? && o.ok) ==> LeaksStay(s.objs, s.v, after.objs, after.v)
    ensures Accounted(base, s.objs, s.blocks) ==> Accounted(base, after.objs, after.blocks)
  {
    hide LeaksStay, Leaked, Accounted, Removed, Deletable, Target, FileName, Inv, Tiled, MakesDir, MakesFile, Writes;
    match c
    case MakeDir(path) => MakesDirKeeps(base, root, s, path, o.ok, after);
    case MakeFile(path) => MakesFileKeeps(base, root, s, path, o.ok, after);
    case Remove(path) =>
      if o.ok {
        if Accounted(base, s.objs, s.blocks) {
          DeleteAccounted(base, s.objs, s.v, s.blocks, Target(s.v.tree, path).value, FileName(path), after.objs,
                          after.v, after.blocks);
        }
      } else {
        SameKeeps(base, s, after);
      }
    case WriteFile(path, words) => WritesKeep(base, root, s, path, ToBytes(Joined(words)), o.ok, after);
    case ShowFile(name) => NothingKeeps(base, s);
    case List(where) => NothingKeeps(base, s);
    case ReadBytes(path, offset, size) => NothingKeeps(base, s);
    case WriteBytes(path, offset, data) =>
      if Resolved(s.v.tree, path).Some? {
        var ok := WriteFitsThere(s, path, offset + |data|);
        WritesToKeeps(base, root, s, Resolved(s.v.tree, path).value, offset, data, ok, after);
      } else {
        NothingKeeps(base, s);
      }
  }

  lemma SameKeeps(base: set<nat>, s: Snapshot, after: Snapshot)
    requires after.objs == s.objs && after.v == s.v && after.blocks == s.blocks
    ensures KeepsAll(base, s, after)
  {
    hide Leaked, Accounted;
  }

  // ---- Sessions -------------------------------------------------------------------

  ghost predicate AllSound(root: nat, states: seq<Snapshot>) {
    forall s :: s in states ==> Sound(s, root)
  }

  ghost predicate AllWellformed(commands: seq<Command>) {
    forall c :: c in commands ==> Wellformed(c)
  }

  /** After any session a record is leaked exactly if it was before, or if one of the commands cut it off. */
  lemma {:induction false} TraceLeaks(root: nat, states: seq<Snapshot>, commands: seq<Command>, outcomes: seq<Outcome>,
                                      n: nat)
    requires Trace(states, commands, outcomes) && AllSound(root, states) && AllWellformed(commands) && n <= |commands|
    ensures forall a :: Leaked(states[n].objs, states[n].v, a) <==>
                        || Leaked(states[0].objs, states[0].v, a)
                        || exists i :: 0 <= i < n && Orphaned(states[i], commands[i], a)
    ensures forall base ::
              Accounted(base, states[0].objs, states[0].blocks) ==> Accounted(base, states[n].objs, states[n].blocks)
  {
    hide Leaked, Orphaned, Accounted, Sound, Effect, Wellformed;
    if n > 0 {
      TraceLeaks(root, states, commands, outcomes, n - 1);
      EffectLeaks(root, states[n - 1], commands[n - 1], outcomes[n - 1], states[n]);
    }
  }

  /** The command removes a directory that is not empty. */
  predicate CutsOff(s: Snapshot, c: Command) {
    var r := RemovedNode(s.v.tree, c);
    r.Some? && IsDir(s.v.tree, r.value) && s.v.tree[r.value].names != []
  }

  /** Every live block that was not live in `base` belongs to a node of the tree. */
  ghost predicate NothingLost(base: set<nat>, s: Snapshot) {
    forall a :: a in Live(s.blocks) && a !in base ==> exists p :: Owns(s.objs, s.v, p, a)
  }

  lemma LostIsLeaked(base: set<nat>, s: Snapshot)
    requires Accounted(base, s.objs, s.blocks)
    ensures NothingLost(base, s) <==> forall a :: !Leaked(s.objs, s.v, a)
  {
    hide Live, Owns;
    if NothingLost(base, s) {
      forall a ensures !Leaked(s.objs, s.v, a) {
        if a in s.objs {
          assert a in Live(s.blocks) && a !in base;
        }
      }
    } else {
      var a :| a in Live(s.blocks) && a !in base && !exists p :: Owns(s.objs, s.v, p, a);
      assert Leaked(s.objs, s.v, a);
    }
  }

  lemma CutsOffIff(root: nat, s: Snapshot, c: Command)
    requires Sound(s, root)
    ensures CutsOff(s, c) <==> exists a :: Orphaned(s, c, a)
  {
    hide Below, Shape, Tiled, StoreOk, Target, FileName;
    var r := RemovedNode(s.v.tree, c);
    if r.Some? {
      BelowIff(s.objs, Live(s.blocks), root, s.v, r.value);
      if a :| Below(s.objs, s.v, r.value, a) {
        assert Orphaned(s, c, a);
      }
    }
  }

  /** A session loses no block exactly if none of its commands removes a directory that is not empty. */
  lemma SessionLosesIff(base: set<nat>, root: nat, states: seq<Snapshot>, commands: seq<Command>,
                        outcomes: seq<Outcome>)
    requires Trace(states, commands, outcomes) && AllSound(root, states) && AllWellformed(commands)
    requires Accounted(base, states[0].objs, states[0].blocks) && NothingLost(base, states[0])
    ensures NothingLost(base, states[|commands|]) <==>
            forall i :: 0 <= i < |commands| ==> !CutsOff(states[i], commands[i])
  {
    hide Leaked, Orphaned, Accounted, Sound, Effect, Wellformed, CutsOff, NothingLost;
    var (n, last) := (|commands|, states[|commands|]);
    TraceLeaks(root, states, commands, outcomes, n);
    LostIsLeaked(base, states[0]);
    LostIsLeaked(base, last);
    forall i | 0 <= i < n ensures CutsOff(states[i], commands[i]) <==> exists a :: Orphaned(states[i], commands[i], a) {
      CutsOffIff(root, states[i], commands[i]);
    }
    if i :| 0 <= i < n && CutsOff(states[i], commands[i]) {
      var a :| Orphaned(states[i], commands[i], a);
      assert Leaked(last.objs, last.v, a);
    }
  }

  // ---- From the mount on ------------------------------------------------------------

  lemma CreatedReady(objs: Store, root: nat, v: View, bs: seq<Block>, inode: u32, p: Path, x: string, objs': Store,
                     v': View, bs': seq<Block>)
    requires Shape(objs, root, v) && Shape(objs', root, v') && DirCreated(objs, v, bs, inode, p, x, objs', v', bs')
    ensures LinkReady(objs, root, v, p, x)
  {
    hide NodeAt, DirGrants, TreeOk, DirStore;
    NameWasFree(v.tree, p, x, Dir([]));
  }

  lemma NotInFront(x: string, names: seq<string>)
    requires Distinct([x] + names)
    ensures x !in names
  {
    forall i | 0 <= i < |names| ensures names[i] != x {
      assert ([x] + names)[i + 1] == names[i] && ([x] + names)[0] == x;
    }
  }

  lemma NameWasFree(t: Tree, p: Path, x: string, content: Content)
    requires TreeOk(t) && IsDir(t, p) && TreeOk(Link(t, p, x, content))
    ensures Find(t, p, x) == None && |x| <= NAME_MAX
  {
    var after := Link(t, p, x, content);
    var names := after[p].names;
    assert names == [x] + t[p].names && NamesOk(names) && names[0] in names;
    NotInFront(x, t[p].names);
  }

  lemma DefaultKeeps(base: set<nat>, root: nat, s: Snapshot, name: string, after: Snapshot)
    requires Sound(s, root) && Sound(after, root) && DefaultTried(s, name, after)
    ensures KeepsAll(base, s, after)
  {
    hide LeaksStay, Accounted, DirCreated, Shape, StoreOk, Tiled, Live;
    if DirGrants(s.blocks).Some? {
      CreatedReady(s.objs, root, s.v, s.blocks, s.inode, Root, name, after.objs, after.v, after.blocks);
      DirLeaksNothing(s.objs, root, s.v, s.blocks, s.inode, Root, name, after.objs, after.v, after.blocks);
      if Accounted(base, s.objs, s.blocks) {
        DirAccounted(base, s.objs, s.v, s.blocks, s.inode, Root, name, after.objs, after.v, after.blocks);
      }
    } else {
      UnchangedKeeps(base, s, after);
    }
  }

  lemma RootIsOwned(bs: seq<Block>, inode: u32, root: nat, s: Snapshot)
    requires Tiled(bs) && RootOnly(bs, inode, root, s) && Sound(s, root)
    ensures Accounted(Live(bs).Keys, s.objs, s.blocks) && forall a :: !Leaked(s.objs, s.v, a)
  {
    hide Tiled, Malloc, Live;
    var n := Malloc(bs, RoundUp(NODE_SIZE));
    RoundUpAligned(NODE_SIZE);
    RoundUpAligned(DIR_SIZE);
    GrantAdds(bs, RoundUp(NODE_SIZE));
    GrantAdds(n.blocks, RoundUp(DIR_SIZE));
    ShapeAt(s.objs, root, s.v, Root);
    forall a ensures !Leaked(s.objs, s.v, a) {
      NewDirOwns(s.objs, s.v, Root, n.ptr, a);
    }
  }

  /** A mount loses nothing. */
  lemma MountLosesNothing(bs: seq<Block>, inode: u32, root: nat, states: seq<Snapshot>)
    requires Tiled(bs) && Mounting(bs, inode, root, states)
    ensures Accounted(Live(bs).Keys, states[3].objs, states[3].blocks) && NothingLost(Live(bs).Keys, states[3])
  {
    hide Tiled, Live, Accounted, Leaked, RootOnly, DefaultTried, Sound, NothingLost;
    var base := Live(bs).Keys;
    RootIsOwned(bs, inode, root, states[0]);
    DefaultKeeps(base, root, states[0], "dev", states[1]);
    DefaultKeeps(base, root, states[1], "proc", states[2]);
    DefaultKeeps(base, root, states[2], "tmp", states[3]);
    LostIsLeaked(base, states[3]);
  }

  /** From `memory_init` on: after the mount and any session, every live block belongs to a node of the tree exactly if
      no command removed a directory that is not empty. */
  lemma BootSessionLosesIff(inode: u32, root: nat, mounting: seq<Snapshot>,
                            states: seq<Snapshot>, commands: seq<Command>, outcomes: seq<Outcome>)
    requires Mounting(INITIAL, inode, root, mounting) && |states| > 0 && states[0] == mounting[3]
    requires Trace(states, commands, outcomes) && AllSound(root, states) && AllWellformed(commands)
    ensures NothingLost({}, states[|commands|]) <==>
            forall i :: 0 <= i < |commands| ==> !CutsOff(states[i], commands[i])
  {
    hide Tiled, Mounting, Trace, CutsOff, NothingLost, Sound, Accounted, AllSound;
    InitialIsBumped();
    MountLosesNothing(INITIAL, inode, root, mounting);
    assert Live(INITIAL).Keys == {};
    SessionLosesIff({}, root, states, commands, outcomes);
  }

  lemma BootAccounted(inode: u32, root: nat, mounting: seq<Snapshot>)
    requires Mounting(INITIAL, inode, root, mounting)
    ensures Accounted({}, mounting[3].objs, mounting[3].blocks)
  {
    hide Mounting, Accounted, NothingLost;
    InitialIsBumped();
    MountLosesNothing(INITIAL, inode, root, mounting);
    assert Live(INITIAL).Keys == {};
  }

  lemma NothingInDir(t: Tree)
    requires t == Link(Directories(["tmp", "proc", "dev"]), Root, "d", Dir([]))
    ensures In(In(Root, "d"), "f") !in t
  {
  }

  /** The mounted file system with a directory `d`. */
  method BootDir(fs: FileSystem) returns (r: nat, dir: nat)
    requires fs.heap.Valid() && fs.heap.blocks == INITIAL && fs.objs == map[]
    modifies fs, fs.heap, fs.heap.mem
    ensures fs.Valid() && r != NULL && dir != NULL && fs.Refers(r, Root) && fs.Refers(dir, In(Root, "d"))
    ensures fs.v.tree == Link(Directories(["tmp", "proc", "dev"]), Root, "d", Dir([]))
    ensures Tiled(fs.heap.blocks) && Bumped(fs.heap.blocks, 63772) && Accounted({}, fs.objs, fs.heap.blocks)
  {
    hide Inv, Tiled, Live, Bumped, Mounting, Accounted, DirGrants, DirStore, NodeAt, Coarser;
    ghost var mounting;
    r, mounting := MountAtBoot(fs);
    BootAccounted(old(fs.nextInode), r, mounting);
    ghost var s := Now(fs);
    BumpedDir(s.blocks, 64152);
    dir := fs.CreateDir(r, "d", Root);
    DirAccounted({}, s.objs, s.v, s.blocks, s.inode, Root, "d", fs.objs, fs.v, fs.heap.blocks);
  }

  /** And a file `f` in it. */
  method BootDirWithFile(fs: FileSystem) returns (r: nat)
    requires fs.heap.Valid() && fs.heap.blocks == INITIAL && fs.objs == map[]
    modifies fs, fs.heap, fs.heap.mem
    ensures fs.Valid() && r != NULL && fs.Refers(r, Root) && fs.v.tree[Root].Dir?
    ensures var c := In(Root, "d"); c in fs.v.tree && fs.v.tree[c] == Dir(["f"])
    ensures Accounted({}, fs.objs, fs.heap.blocks)
  {
    hide Inv, Tiled, Live, Bumped, Accounted, FileGrants, FileStore, NodeAt, Directories;
    var dir;
    r, dir := BootDir(fs);
    ghost var (s, c) := (Now(fs), In(Root, "d"));
    NothingInDir(fs.v.tree);
    BumpedFile(s.blocks, 63772);
    var file := fs.CreateFile(dir, "f", c);
    FileAccounted({}, s.objs, s.v, s.blocks, s.inode, c, "f", fs.objs, fs.v, fs.heap.blocks);
    assert fs.v.tree[c] == Dir(["f"] + []);
  }

  lemma DeleteLoses(root: nat, s: Snapshot, p: Path, x: string, after: Snapshot)
    requires Sound(s, root) && Accounted({}, s.objs, s.blocks)
    requires Removed(s.objs, s.v, p, x, s.blocks, after.objs, after.v, after.blocks)
    requires In(p, x) in s.v.tree && s.v.tree[In(p, x)].Dir? && s.v.tree[In(p, x)].names != []
    ensures !NothingLost({}, after)
  {
    hide Tiled, Live, Removed, Accounted, NothingLost, Leaked, Below, Inv;
    DeleteAccounted({}, s.objs, s.v, s.blocks, p, x, after.objs, after.v, after.blocks);
    DeleteLeaks(s.objs, root, s.v, s.blocks, p, x, after.objs, after.v, after.blocks);
    BelowIff(s.objs, Live(s.blocks), root, s.v, In(p, x));
    LostIsLeaked({}, after);
    var a :| Below(s.objs, s.v, In(p, x), a);
    assert Leaked(after.objs, after.v, a);
  }

  /** Such a session: right after the mount a directory is made, a file is made in it, and the directory is removed. */
  method RemovedDirectoryLosesItsFile(fs: FileSystem)
    requires fs.heap.Valid() && fs.heap.blocks == INITIAL && fs.objs == map[]
    modifies fs, fs.heap, fs.heap.mem
    ensures fs.Valid() && !NothingLost({}, Now(fs))
  {
    hide Inv, Tiled, Live, Accounted, NothingLost, Removed;
    var r := BootDirWithFile(fs);
    ghost var s := Now(fs);
    var ok := fs.Delete(r, "d", Root);
    DeleteLoses(fs.root, s, Root, "d", Now(fs));
  }
}
