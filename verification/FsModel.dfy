/**
 How the tree is laid out in records: nodes, directory structs, linked entries
 and growable file buffers, each in its own heap block.
 */
module FsModel {
  import opened Machine
  import opened FsTree

  const FS_FILE: nat := 1
  const FS_DIRECTORY: nat := 2

  /** The C structs, without the fields nothing reads. Two fields of the file data are bookkeeping the C struct does not
      have: the capacity the file began with, and how many bytes its resizes have copied. */
  datatype Obj =
    | Node(name: string, flags: nat, inode: u32, length: nat, ptr: nat)
    | DirStruct(entries: nat, numEntries: nat, parent: nat)
    | Entry(name: string, node: nat, next: nat)
    | FileData(data: nat, size: nat, capacity: nat, first: nat, copied: nat)
    | Buffer(bytes: seq<byte>)

  type Store = map<nat, Obj>

  const NODE_SIZE: nat := 188
  const DIR_SIZE: nat := 12
  const ENTRY_SIZE: nat := 136
  const DATA_SIZE: nat := 12

  function SizeOf(o: Obj): nat {
    match o
    case Node(_, _, _, _, _) => NODE_SIZE
    case DirStruct(_, _, _) => DIR_SIZE
    case Entry(_, _, _) => ENTRY_SIZE
    case FileData(_, _, _, _, _) => DATA_SIZE
    case Buffer(bytes) => |bytes|
  }

  /** What a record is for. */
  datatype Role =
    | NodeOf(path: Path)
    | DirOf(path: Path)
    | EntryOf(path: Path, name: string)
    | DataOf(path: Path)
    | BufferOf(path: Path)

  /** The tree, where its nodes and entries are stored, and what each record is for. */
  datatype View = View(tree: Tree, at: map<Path, nat>, chain: map<Path, seq<nat>>, role: map<nat, Role>)

  predicate Is(v: View, a: nat, r: Role) {
    a in v.role && v.role[a] == r
  }

  function First(chain: seq<nat>): nat {
    if chain == [] then NULL else chain[0]
  }

  function NextIn(chain: seq<nat>, i: nat): nat
    requires i < |chain|
  {
    if i + 1 < |chain| then chain[i + 1] else NULL
  }

  /** Entry `i` of directory `p`. */
  predicate EntryAt(objs: Store, v: View, p: Path, names: seq<string>, i: nat)
    requires p in v.chain && i < |names| == |v.chain[p]|
  {
    var e := v.chain[p][i];
    && In(p, names[i]) in v.at
    && e in objs && objs[e] == Entry(names[i], v.at[In(p, names[i])], NextIn(v.chain[p], i))
    && Is(v, e, EntryOf(p, names[i]))
  }

  function ParentOf(v: View, p: Path): nat
    requires p.In? ==> p.dir in v.at
  {
    if p.Root? then NULL else v.at[p.dir]
  }

  ghost predicate DirAt(objs: Store, v: View, p: Path, n: Obj, names: seq<string>)
    requires n.Node?
  {
    && n.flags == FS_DIRECTORY
    && n.ptr in objs && Is(v, n.ptr, DirOf(p))
    && (p.In? ==> p.dir in v.at)
    && p in v.chain && |v.chain[p]| == |names|
    && objs[n.ptr] == DirStruct(First(v.chain[p]), |names|, ParentOf(v, p))
    && forall i :: 0 <= i < |names| ==> EntryAt(objs, v, p, names, i)
  }

  /** The bytes copied so far are at most the capacity gained. */
  predicate Paid(fd: Obj)
    requires fd.FileData?
  {
    fd.first + fd.copied <= fd.capacity
  }

  predicate FileAt(objs: Store, v: View, p: Path, n: Obj, bytes: seq<byte>)
    requires n.Node?
  {
    && n.flags == FS_FILE
    && n.length == |bytes|
    && if n.ptr == NULL then bytes == []
       else
         && n.ptr in objs && objs[n.ptr].FileData? && Is(v, n.ptr, DataOf(p))
         && var fd := objs[n.ptr];
            && fd.data in objs && objs[fd.data].Buffer? && Is(v, fd.data, BufferOf(p))
            && fd.size == |bytes| <= fd.capacity == |objs[fd.data].bytes|
            && 0 < fd.capacity && Paid(fd)
            && objs[fd.data].bytes[..fd.size] == bytes
  }

  ghost predicate NodeAt(objs: Store, v: View, p: Path)
    requires p in v.tree
  {
    && p in v.at
    && var a := v.at[p];
       && a in objs && objs[a].Node? && Is(v, a, NodeOf(p))
       && match v.tree[p]
          case File(bytes) => FileAt(objs, v, p, objs[a], bytes)
          case Dir(names) => DirAt(objs, v, p, objs[a], names)
  }

  lemma FlagsTell(objs: Store, v: View, p: Path)
    requires p in v.tree && NodeAt(objs, v, p)
    ensures v.at[p] in objs && objs[v.at[p]].Node?
    ensures objs[v.at[p]].flags % 8 == FS_DIRECTORY <==> IsDir(v.tree, p)
    ensures objs[v.at[p]].flags % 8 == FS_FILE <==> v.tree[p].File?
  {
  }

  /** Each record fits the live heap block it is stored in. */
  ghost predicate StoreOk(objs: Store, live: map<nat, nat>) {
    && NULL !in objs
    && forall a :: a in objs ==> a in live && SizeOf(objs[a]) <= live[a]
  }

  /** The records represent the tree. */
  ghost predicate Shape(objs: Store, root: nat, v: View) {
    && TreeOk(v.tree)
    && v.at.Keys == v.tree.Keys
    && v.at[Root] == root
    && forall p {:trigger NodeAt(objs, v, p)} :: p in v.tree ==> NodeAt(objs, v, p)
  }

  ghost predicate Inv(objs: Store, live: map<nat, nat>, root: nat, v: View) {
    StoreOk(objs, live) && Shape(objs, root, v)
  }

  lemma EveryNode(objs: Store, live: map<nat, nat>, root: nat, v: View, p: Path)
    requires Inv(objs, live, root, v) && p in v.tree
    ensures NodeAt(objs, v, p)
  {
    hide NodeAt;
  }

  // ---- Separation ---------------------------------------------------------

  /** The records node `p` is made of. */
  function Owned(objs: Store, v: View, p: Path): seq<nat>
    requires p in v.tree && p in v.at && v.at[p] in objs && objs[v.at[p]].Node?
    requires p in v.chain || v.tree[p].File?
  {
    var n := objs[v.at[p]];
    match v.tree[p]
    case Dir(_) => [v.at[p], n.ptr] + v.chain[p]
    case File(_) =>
      if n.ptr == NULL || n.ptr !in objs || !objs[n.ptr].FileData? then [v.at[p]]
      else [v.at[p], n.ptr, objs[n.ptr].data]
  }

  /** The path a record belongs to, and its place among the records of that path. */
  lemma OwnedRole(objs: Store, v: View, p: Path, i: nat)
    requires TreeOk(v.tree) && p in v.tree && NodeAt(objs, v, p)
    requires i < |Owned(objs, v, p)|
    ensures var a := Owned(objs, v, p)[i];
            && a in objs && a in v.role
            && v.role[a] == (match v.tree[p]
                             case Dir(names) => if i == 0 then NodeOf(p) else if i == 1 then DirOf(p)
                                 else EntryOf(p, names[i - 2])
                             case File(_) => if i == 0 then NodeOf(p) else if i == 1 then DataOf(p) else BufferOf(p))
  {
    if v.tree[p].Dir? && i >= 2 {
      assert EntryAt(objs, v, p, v.tree[p].names, i - 2);
    }
  }

  /** No record serves twice: not within one node, not in two nodes; and each has a live block of its own. */
  lemma Separation(objs: Store, live: map<nat, nat>, root: nat, v: View, p: Path, i: nat, q: Path, j: nat)
    requires Inv(objs, live, root, v) && p in v.tree && NodeAt(objs, v, p) && q in v.tree && NodeAt(objs, v, q)
    requires i < |Owned(objs, v, p)| && j < |Owned(objs, v, q)| && (p != q || i != j)
    ensures Owned(objs, v, p)[i] != Owned(objs, v, q)[j]
    ensures Owned(objs, v, p)[i] in live
  {
    OwnedRole(objs, v, p, i);
    OwnedRole(objs, v, q, j);
    if p == q && v.tree[p].Dir? {
      assert NamesOk(v.tree[p].names);
    }
  }

  /** One directory lists each node: two paths never lead to the same node. */
  lemma NodesAreDistinct(objs: Store, live: map<nat, nat>, root: nat, v: View, p: Path, q: Path)
    requires Inv(objs, live, root, v) && p in v.tree && q in v.tree && v.at[p] == v.at[q]
    ensures p == q
  {
    assert NodeAt(objs, v, p) && NodeAt(objs, v, q);
  }

  // ---- Framing ------------------------------------------------------------

  /** The records of path `q`, and the addresses its records mention, are the same in both stores. */
  ghost predicate Untouched(objs: Store, v: View, objs': Store, v': View, q: Path)
    requires q in v.tree
  {
    && q in v'.tree && v'.tree[q] == v.tree[q]
    && (q in v.at ==> q in v'.at && v'.at[q] == v.at[q])
    && (q in v.chain ==> q in v'.chain && v'.chain[q] == v.chain[q])
    && (q.In? && q.dir in v.at ==> q.dir in v'.at && v'.at[q.dir] == v.at[q.dir])
    && (v.tree[q].Dir? ==> forall x :: x in v.tree[q].names && In(q, x) in v.at ==>
          In(q, x) in v'.at && v'.at[In(q, x)] == v.at[In(q, x)])
    && forall a :: a in objs && a in v.role && v.role[a].path == q ==>
          a in objs' && objs'[a] == objs[a] && a in v'.role && v'.role[a] == v.role[a]
  }

  lemma UntouchedStays(objs: Store, v: View, objs': Store, v': View, q: Path)
    requires q in v.tree && NodeAt(objs, v, q) && Untouched(objs, v, objs', v', q)
    ensures NodeAt(objs', v', q)
  {
    var n := objs[v.at[q]];
    match v.tree[q]
    case File(bytes) =>
      if n.ptr != NULL {
        assert v.role[objs[n.ptr].data].path == q;
      }
    case Dir(names) =>
      forall i | 0 <= i < |names| ensures EntryAt(objs', v', q, names, i) {
        assert EntryAt(objs, v, q, names, i);
        assert names[i] in names;
      }
  }

  // ---- A new record nobody refers to yet -----------------------------------

  lemma ExtraRecord(objs: Store, live: map<nat, nat>, root: nat, v: View, a: nat, o: Obj, size: nat)
    requires Inv(objs, live, root, v) && a != NULL && a !in objs && SizeOf(o) <= size
    ensures Inv(objs[a := o], live[a := size], root, v)
  {
    hide NodeAt, TreeOk;
    var objs' := objs[a := o];
    forall p | p in v.tree ensures NodeAt(objs', v, p) {
      UntouchedStays(objs, v, objs', v, p);
    }
  }

  // ---- A new entry --------------------------------------------------------

  /** The view after entry `e` for node `n` was put in front of directory `p`; `ds` is the struct of a new directory. */
  function LinkView(v: View, p: Path, x: string, content: Content, n: nat, ds: nat, e: nat): View
    requires IsDir(v.tree, p) && p in v.chain
  {
    var c := In(p, x);
    var role := v.role[n := NodeOf(c)][e := EntryOf(p, x)];
    View(Link(v.tree, p, x, content),
         v.at[c := n],
         v.chain[p := [e] + v.chain[p]][c := []],
         if content.Dir? then role[ds := DirOf(c)] else role)
  }

  function EmptyFile(x: string, inode: u32): Obj {
    Node(x, FS_FILE, inode, 0, NULL)
  }

  function EmptyDir(x: string, inode: u32, ds: nat): Obj {
    Node(x, FS_DIRECTORY, inode, 0, ds)
  }

  /** The records after an entry for `n` was put in front of the directory struct `d`. */
  function WithEntry(objs: Store, d: nat, x: string, n: nat, e: nat): Store
    requires d in objs && objs[d].DirStruct?
  {
    objs[e := Entry(x, n, objs[d].entries)][d := DirStruct(e, objs[d].numEntries + 1, objs[d].parent)]
  }

  /** The address of the struct of directory `p`. */
  function StructOf(objs: Store, v: View, p: Path): nat
    requires p in v.at && v.at[p] in objs && objs[v.at[p]].Node?
  {
    objs[v.at[p]].ptr
  }

  ghost predicate LinkReady(objs: Store, root: nat, v: View, p: Path, x: string) {
    Shape(objs, root, v) && IsDir(v.tree, p) && Find(v.tree, p, x) == None && |x| <= NAME_MAX
  }

  /** What is true of the view and the records after any link, stated without naming them. */
  ghost predicate Linked(objs: Store, v: View, p: Path, x: string, content: Content, objs': Store, v': View, n: nat,
                         e: nat)
    requires IsDir(v.tree, p) && p in v.at && v.at[p] in objs && objs[v.at[p]].Node? && p in v.chain
  {
    && e !in objs && n !in objs && e != n && e != NULL && n != NULL
    && v'.tree == Link(v.tree, p, x, content)
    && v'.at == v.at[In(p, x) := n]
    && v'.chain == v.chain[p := [e] + v.chain[p]][In(p, x) := []]
    && (forall a :: a in objs && a in v.role ==> a in v'.role && v'.role[a] == v.role[a])
    && Is(v', e, EntryOf(p, x)) && Is(v', n, NodeOf(In(p, x)))
    && (forall a :: a in objs && a != StructOf(objs, v, p) ==> a in objs' && objs'[a] == objs[a])
    && var d := StructOf(objs, v, p);
       && d in objs' && objs'[d] == DirStruct(e, |v.tree[p].names| + 1,
                                              if p.In? && p.dir in v.at then v.at[p.dir] else NULL)
       && e in objs' && objs'[e] == Entry(x, n, First(v.chain[p]))
  }

  lemma LinkFrames(objs: Store, v: View, p: Path, x: string, content: Content, objs': Store, v': View, n: nat, e: nat,
                   q: Path)
    requires IsDir(v.tree, p) && NodeAt(objs, v, p) && In(p, x) !in v.at && x !in v.tree[p].names
    requires Linked(objs, v, p, x, content, objs', v', n, e)
    requires q in v.tree && q != p && q != In(p, x) && NodeAt(objs, v, q)
    ensures NodeAt(objs', v', q)
  {
    UntouchedStays(objs, v, objs', v', q);
  }

  /** Directory `p` after the new entry: the old chain behind the new one. */
  lemma LinkedParent(objs: Store, v: View, p: Path, x: string, content: Content, objs': Store, v': View, n: nat, e: nat)
    requires IsDir(v.tree, p) && NodeAt(objs, v, p) && In(p, x) !in v.at
    requires Linked(objs, v, p, x, content, objs', v', n, e)
    ensures NodeAt(objs', v', p)
  {
    var names := v.tree[p].names;
    forall i | 0 <= i < |names| + 1 ensures EntryAt(objs', v', p, [x] + names, i) {
      if i > 0 {
        assert EntryAt(objs, v, p, names, i - 1);
        assert ([x] + names)[i] == names[i - 1];
      }
    }
  }

  /** Everything but the new node itself. */
  lemma LinkKeepsOthers(objs: Store, root: nat, v: View, p: Path, x: string, content: Content,
                        objs': Store, v': View, n: nat, e: nat)
    requires LinkReady(objs, root, v, p, x) && NodeAt(objs, v, p)
    requires content == File([]) || content == Dir([])
    requires Linked(objs, v, p, x, content, objs', v', n, e)
    ensures TreeOk(v'.tree) && v'.at.Keys == v'.tree.Keys && v'.at[Root] == root
    ensures forall q :: q in v'.tree && q != In(p, x) ==> NodeAt(objs', v', q)
  {
    hide DirAt, FileAt, EntryAt;
    LinkKeepsTree(v.tree, p, x, content);
    LinkedParent(objs, v, p, x, content, objs', v', n, e);
    forall q | q in v.tree && q != p ensures NodeAt(objs', v', q) {
      LinkFrames(objs, v, p, x, content, objs', v', n, e, q);
    }
  }

  ghost predicate Fresh(objs: Store, live: map<nat, nat>, a: nat, size: nat) {
    a != NULL && a !in objs && a in live && live[a] >= size
  }

  /** `live` grew, and `objs'` differs from `objs` in fresh records and in one struct. */
  lemma StoreGrows(objs: Store, live: map<nat, nat>, objs': Store, live': map<nat, nat>)
    requires StoreOk(objs, live)
    requires forall a :: a in live ==> a in live' && live'[a] == live[a]
    requires forall a :: a in objs' && a in objs ==> SizeOf(objs'[a]) == SizeOf(objs[a])
    requires forall a :: a in objs' && a !in objs ==> Fresh(objs, live', a, SizeOf(objs'[a]))
    ensures StoreOk(objs', live')
  {
  }

  function FileStore(objs: Store, d: nat, x: string, inode: u32, n: nat, e: nat): Store
    requires d in objs && objs[d].DirStruct? && n != d
  {
    WithEntry(objs[n := EmptyFile(x, inode)], d, x, n, e)
  }

  lemma FileIsLinked(objs: Store, v: View, p: Path, x: string, inode: u32, n: nat, e: nat)
    requires IsDir(v.tree, p) && NodeAt(objs, v, p) && In(p, x) !in v.at
    requires n !in objs && e !in objs && n != e && n != NULL && e != NULL
    ensures var objs' := FileStore(objs, StructOf(objs, v, p), x, inode, n, e);
            var v' := LinkView(v, p, x, File([]), n, NULL, e);
            Linked(objs, v, p, x, File([]), objs', v', n, e) && NodeAt(objs', v', In(p, x))
  {
  }

  lemma FileStoreOk(objs: Store, live: map<nat, nat>, d: nat, x: string, inode: u32, n: nat, e: nat,
                    live': map<nat, nat>)
    requires StoreOk(objs, live) && d in objs && objs[d].DirStruct?
    requires Fresh(objs, live', n, NODE_SIZE) && Fresh(objs, live', e, ENTRY_SIZE) && n != e
    requires forall a :: a in live ==> a in live' && live'[a] == live[a]
    ensures StoreOk(FileStore(objs, d, x, inode, n, e), live')
  {
    StoreGrows(objs, live, FileStore(objs, d, x, inode, n, e), live');
  }

  /** A new empty file. */
  lemma FileLinked(objs: Store, live: map<nat, nat>, root: nat, v: View, p: Path, x: string,
                   inode: u32, n: nat, e: nat, live': map<nat, nat>)
    requires StoreOk(objs, live) && LinkReady(objs, root, v, p, x) && NodeAt(objs, v, p)
    requires Fresh(objs, live', n, NODE_SIZE) && Fresh(objs, live', e, ENTRY_SIZE) && n != e
    requires forall a :: a in live ==> a in live' && live'[a] == live[a]
    ensures Inv(FileStore(objs, StructOf(objs, v, p), x, inode, n, e), live', root,
                LinkView(v, p, x, File([]), n, NULL, e))
  {
    FileStoreOk(objs, live, StructOf(objs, v, p), x, inode, n, e, live');
    FileShape(objs, root, v, p, x, inode, n, e);
  }

  lemma FileShape(objs: Store, root: nat, v: View, p: Path, x: string, inode: u32, n: nat, e: nat)
    requires LinkReady(objs, root, v, p, x) && NodeAt(objs, v, p)
    requires n !in objs && e !in objs && n != e && n != NULL && e != NULL
    ensures Shape(FileStore(objs, StructOf(objs, v, p), x, inode, n, e), root, LinkView(v, p, x, File([]), n, NULL, e))
  {
    FileIsLinked(objs, v, p, x, inode, n, e);
    LinkKeepsOthers(objs, root, v, p, x, File([]), FileStore(objs, StructOf(objs, v, p), x, inode, n, e),
                    LinkView(v, p, x, File([]), n, NULL, e), n, e);
  }

  function DirStore(objs: Store, d: nat, x: string, inode: u32, n: nat, ds: nat, parent: nat, e: nat): Store
    requires d in objs && objs[d].DirStruct? && n != d && ds != d
  {
    WithEntry(objs[n := EmptyDir(x, inode, ds)][ds := DirStruct(NULL, 0, parent)], d, x, n, e)
  }

  lemma DirIsLinked(objs: Store, v: View, p: Path, x: string, inode: u32, n: nat, ds: nat, e: nat)
    requires IsDir(v.tree, p) && NodeAt(objs, v, p) && In(p, x) !in v.at
    requires n !in objs && e !in objs && ds !in objs && n != e && n != ds && e != ds
    requires n != NULL && e != NULL && ds != NULL
    ensures var objs' := DirStore(objs, StructOf(objs, v, p), x, inode, n, ds, v.at[p], e);
            var v' := LinkView(v, p, x, Dir([]), n, ds, e);
            Linked(objs, v, p, x, Dir([]), objs', v', n, e) && NodeAt(objs', v', In(p, x))
  {
  }

  lemma DirStoreOk(objs: Store, live: map<nat, nat>, d: nat, x: string, inode: u32, n: nat, ds: nat, parent: nat,
                   e: nat, live': map<nat, nat>)
    requires StoreOk(objs, live) && d in objs && objs[d].DirStruct?
    requires Fresh(objs, live', n, NODE_SIZE) && Fresh(objs, live', e, ENTRY_SIZE) && Fresh(objs, live', ds, DIR_SIZE)
    requires n != e && n != ds && e != ds
    requires forall a :: a in live ==> a in live' && live'[a] == live[a]
    ensures StoreOk(DirStore(objs, d, x, inode, n, ds, parent, e), live')
  {
    StoreGrows(objs, live, DirStore(objs, d, x, inode, n, ds, parent, e), live');
  }

  lemma DirShape(objs: Store, root: nat, v: View, p: Path, x: string, inode: u32, n: nat, ds: nat, e: nat)
    requires LinkReady(objs, root, v, p, x) && NodeAt(objs, v, p)
    requires n !in objs && e !in objs && ds !in objs && n != e && n != ds && e != ds
    requires n != NULL && e != NULL && ds != NULL
    ensures Shape(DirStore(objs, StructOf(objs, v, p), x, inode, n, ds, v.at[p], e), root,
                  LinkView(v, p, x, Dir([]), n, ds, e))
  {
    DirIsLinked(objs, v, p, x, inode, n, ds, e);
    LinkKeepsOthers(objs, root, v, p, x, Dir([]), DirStore(objs, StructOf(objs, v, p), x, inode, n, ds, v.at[p], e),
                    LinkView(v, p, x, Dir([]), n, ds, e), n, e);
  }

  /** A new empty directory. */
  lemma DirLinked(objs: Store, live: map<nat, nat>, root: nat, v: View, p: Path, x: string,
                  inode: u32, n: nat, ds: nat, e: nat, live': map<nat, nat>)
    requires StoreOk(objs, live) && LinkReady(objs, root, v, p, x) && NodeAt(objs, v, p)
    requires Fresh(objs, live', n, NODE_SIZE) && Fresh(objs, live', e, ENTRY_SIZE) && Fresh(objs, live', ds, DIR_SIZE)
    requires n != e && n != ds && e != ds
    requires forall a :: a in live ==> a in live' && live'[a] == live[a]
    ensures Inv(DirStore(objs, StructOf(objs, v, p), x, inode, n, ds, v.at[p], e), live', root,
                LinkView(v, p, x, Dir([]), n, ds, e))
  {
    DirStoreOk(objs, live, StructOf(objs, v, p), x, inode, n, ds, v.at[p], e, live');
    DirShape(objs, root, v, p, x, inode, n, ds, e);
  }

  // ---- An entry goes ------------------------------------------------------

  function UnlinkView(v: View, p: Path, x: string): View
    requires IsDir(v.tree, p) && x in v.tree[p].names && p in v.chain && |v.chain[p]| == |v.tree[p].names|
  {
    var i := IndexOf(v.tree[p].names, x);
    View(Prune(v.tree, p, x),
         map q | q in v.at && !Under(In(p, x), q) :: v.at[q],
         v.chain[p := RemoveAt(v.chain[p], i)],
         v.role)
  }

  /** Entry `i` of directory `p` is out of the chain, and nothing but records of the removed node changed besides. */
  ghost predicate Unlinked(objs: Store, v: View, p: Path, i: nat, objs': Store)
    requires IsDir(v.tree, p) && NodeAt(objs, v, p) && i < |v.tree[p].names|
  {
    var (names, chain, d) := (v.tree[p].names, v.chain[p], StructOf(objs, v, p));
    && (forall a :: a in objs && a in v.role && v.role[a].path != In(p, names[i])
                    && a != d && a != chain[i] && (i > 0 ==> a != chain[i - 1]) ==>
          a in objs' && objs'[a] == objs[a])
    && d in objs' && objs'[d] == DirStruct(if i == 0 then NextIn(chain, 0) else First(chain), |names| - 1,
                                           ParentOf(v, p))
    && (i > 0 ==> chain[i - 1] in objs' && In(p, names[i - 1]) in v.at
                  && objs'[chain[i - 1]] == Entry(names[i - 1], v.at[In(p, names[i - 1])], NextIn(chain, i)))
  }

  lemma UnlinkFrames(objs: Store, v: View, p: Path, x: string, objs': Store, q: Path)
    requires IsDir(v.tree, p) && NodeAt(objs, v, p) && x in v.tree[p].names
    requires Unlinked(objs, v, p, IndexOf(v.tree[p].names, x), objs')
    requires q in v.tree && q != p && !Under(In(p, x), q) && NodeAt(objs, v, q)
    ensures NodeAt(objs', UnlinkView(v, p, x), q)
  {
    hide FileAt;
    var v' := UnlinkView(v, p, x);
    var i := IndexOf(v.tree[p].names, x);
    assert EntryAt(objs, v, p, v.tree[p].names, i);
    if i > 0 {
      assert EntryAt(objs, v, p, v.tree[p].names, i - 1);
    }
    UntouchedStays(objs, v, objs', v', q);
  }

  lemma SiblingNotUnder(p: Path, x: string, y: string)
    requires x != y
    ensures !Under(In(p, x), In(p, y)) && !Under(In(p, x), p)
  {
    if Under(In(p, x), p) {
      UnderIsNotUp(p, x, p);
    }
  }

  lemma UnlinkedEntry(objs: Store, v: View, p: Path, x: string, objs': Store, j: nat)
    requires IsDir(v.tree, p) && NodeAt(objs, v, p) && x in v.tree[p].names && Distinct(v.tree[p].names)
    requires Unlinked(objs, v, p, IndexOf(v.tree[p].names, x), objs') && j < |v.tree[p].names| - 1
    ensures EntryAt(objs', UnlinkView(v, p, x), p, RemoveAt(v.tree[p].names, IndexOf(v.tree[p].names, x)), j)
  {
    hide FileAt, Under, IndexOf, Prune;
    var names := v.tree[p].names;
    var i := IndexOf(names, x);
    var k := if j < i then j else j + 1;
    SiblingNotUnder(p, x, names[k]);
    assert EntryAt(objs, v, p, names, k);
    assert EntryAt(objs, v, p, names, i);
    if i > 0 {
      assert EntryAt(objs, v, p, names, i - 1);
    }
  }

  lemma UnlinkedParent(objs: Store, v: View, p: Path, x: string, objs': Store)
    requires IsDir(v.tree, p) && NodeAt(objs, v, p) && x in v.tree[p].names && Distinct(v.tree[p].names)
    requires Unlinked(objs, v, p, IndexOf(v.tree[p].names, x), objs')
    ensures !Under(In(p, x), p) && NodeAt(objs', UnlinkView(v, p, x), p)
  {
    var names := v.tree[p].names;
    var i := IndexOf(names, x);
    SiblingNotUnder(p, x, x + "-");
    assert EntryAt(objs, v, p, names, i);
    if i > 0 {
      assert EntryAt(objs, v, p, names, i - 1);
    }
    forall j | 0 <= j < |names| - 1 ensures EntryAt(objs', UnlinkView(v, p, x), p, RemoveAt(names, i), j) {
      UnlinkedEntry(objs, v, p, x, objs', j);
    }
  }

  /** Deleting entry `x` of `p` leaves the records of the pruned tree. */
  lemma UnlinkShape(objs: Store, root: nat, v: View, p: Path, x: string, objs': Store)
    requires Shape(objs, root, v) && IsDir(v.tree, p) && NodeAt(objs, v, p) && x in v.tree[p].names
    requires Unlinked(objs, v, p, IndexOf(v.tree[p].names, x), objs')
    ensures Shape(objs', root, UnlinkView(v, p, x))
  {
    var v' := UnlinkView(v, p, x);
    assert NamesOk(v.tree[p].names);
    PruneKeepsTree(v.tree, p, x);
    UnlinkedParent(objs, v, p, x, objs');
    forall q | q in v.tree && q != p && !Under(In(p, x), q) ensures NodeAt(objs', v', q) {
      UnlinkFrames(objs, v, p, x, objs', q);
    }
  }

  /** The records behind the node at `c`, in the order in which a delete frees them. */
  function Behind(objs: Store, v: View, c: Path): seq<nat>
    requires c in v.tree && c in v.at && v.at[c] in objs && objs[v.at[c]].Node?
    requires c in v.chain || v.tree[c].File?
  {
    var n := objs[v.at[c]];
    match v.tree[c]
    case Dir(_) => v.chain[c] + [n.ptr]
    case File(_) => if n.ptr == NULL || n.ptr !in objs || !objs[n.ptr].FileData? then [] else [objs[n.ptr].data, n.ptr]
  }

  /** All records a delete frees, in order: what is behind the node, its entry, the node. */
  function Freed(objs: Store, v: View, p: Path, i: nat): seq<nat>
    requires IsDir(v.tree, p) && p in v.chain && i < |v.tree[p].names| == |v.chain[p]|
    requires var c := In(p, v.tree[p].names[i]);
             && c in v.tree && c in v.at && v.at[c] in objs && objs[v.at[c]].Node?
             && (c in v.chain || v.tree[c].File?)
  {
    var c := In(p, v.tree[p].names[i]);
    Behind(objs, v, c) + [v.chain[p][i], v.at[c]]
  }

  function Without(objs: Store, gone: seq<nat>): Store {
    map a | a in objs && a !in gone :: objs[a]
  }

  lemma ChainHasNoNull(objs: Store, v: View, p: Path)
    requires NULL !in objs && IsDir(v.tree, p) && NodeAt(objs, v, p)
    ensures NULL !in v.chain[p]
  {
    forall i | 0 <= i < |v.chain[p]| ensures v.chain[p][i] != NULL {
      assert EntryAt(objs, v, p, v.tree[p].names, i);
    }
  }

  lemma WithoutMore(objs: Store, gone: seq<nat>, i: nat)
    requires i < |gone| && Distinct(gone) && gone[i] in objs
    ensures gone[i] in Without(objs, gone[..i])
    ensures Without(objs, gone[..i]) - {gone[i]} == Without(objs, gone[..i + 1])
  {
    assert gone[..i + 1] == gone[..i] + [gone[i]];
  }

  lemma BehindRoles(objs: Store, v: View, c: Path, a: nat)
    requires c in v.tree && NodeAt(objs, v, c) && a in Behind(objs, v, c)
    ensures a in objs && a in v.role && v.role[a].path == c && v.role[a] != NodeOf(c)
  {
    if v.tree[c].Dir? && a != objs[v.at[c]].ptr {
      var i :| 0 <= i < |v.chain[c]| && v.chain[c][i] == a;
      assert EntryAt(objs, v, c, v.tree[c].names, i);
    }
  }

  lemma BehindDistinct(objs: Store, v: View, c: Path)
    requires c in v.tree && NodeAt(objs, v, c) && (v.tree[c].Dir? ==> Distinct(v.tree[c].names))
    ensures Distinct(Behind(objs, v, c))
  {
    var s := Behind(objs, v, c);
    forall i, j | 0 <= i < j < |s| ensures s[i] != s[j] {
      if v.tree[c].Dir? {
        assert EntryAt(objs, v, c, v.tree[c].names, i);
        if j < |v.chain[c]| {
          assert EntryAt(objs, v, c, v.tree[c].names, j);
        }
      }
    }
  }

  /** Freeing what is behind one node leaves every other node as it was. */
  lemma BehindElsewhere(objs: Store, v: View, c: Path, q: Path)
    requires c in v.tree && NodeAt(objs, v, c) && q in v.tree && NodeAt(objs, v, q) && q != c
    ensures NodeAt(Without(objs, Behind(objs, v, c)), v, q)
  {
    var after := Without(objs, Behind(objs, v, c));
    forall a | a in objs && a in v.role && v.role[a].path == q ensures a in after {
      if a in Behind(objs, v, c) {
        BehindRoles(objs, v, c, a);
      }
    }
    UntouchedStays(objs, v, after, v, q);
  }

  lemma BehindKeepsNode(objs: Store, v: View, c: Path, p: Path)
    requires c in v.tree && NodeAt(objs, v, c) && p in v.tree && NodeAt(objs, v, p)
    ensures var after := Without(objs, Behind(objs, v, c));
            && v.at[p] in after && after[v.at[p]] == objs[v.at[p]]
  {
    if v.at[p] in Behind(objs, v, c) {
      BehindRoles(objs, v, c, v.at[p]);
    }
  }

  /** The records after entry `i` was taken out of the chain of struct `d` and freed. */
  function CutEntry(objs: Store, d: nat, chain: seq<nat>, i: nat): Store
    requires i < |chain| && d in objs && objs[d].DirStruct? && objs[d].numEntries > 0
    requires chain[i] in objs && objs[chain[i]].Entry? && chain[i] != d
    requires i > 0 ==> chain[i - 1] in objs && objs[chain[i - 1]].Entry? && chain[i - 1] != d
  {
    var next := objs[chain[i]].next;
    var linked := if i == 0 then objs[d := objs[d].(entries := next)]
                  else objs[chain[i - 1] := objs[chain[i - 1]].(next := next)];
    (linked - {chain[i]})[d := linked[d].(numEntries := linked[d].numEntries - 1)]
  }

  /** `CutEntry` applies to every entry of a directory. */
  lemma EntryCanGo(objs: Store, v: View, p: Path, i: nat)
    requires IsDir(v.tree, p) && NodeAt(objs, v, p) && i < |v.tree[p].names|
    requires Distinct(v.tree[p].names)
    ensures var (d, chain) := (StructOf(objs, v, p), v.chain[p]);
            && d in objs && objs[d].DirStruct? && objs[d].numEntries > 0
            && chain[i] in objs && objs[chain[i]].Entry? && chain[i] != d
            && (i > 0 ==>
                  chain[i - 1] in objs && objs[chain[i - 1]].Entry? && chain[i - 1] != d && chain[i - 1] != chain[i])
            && chain[i] != v.at[p]
  {
    assert EntryAt(objs, v, p, v.tree[p].names, i);
    if i > 0 {
      assert EntryAt(objs, v, p, v.tree[p].names, i - 1);
    }
  }

  /** The three steps of a delete, taken together, are an unlinking. */
  lemma DeleteUnlinks(objs: Store, v: View, p: Path, i: nat, freed: Store)
    requires IsDir(v.tree, p) && NodeAt(objs, v, p) && i < |v.tree[p].names| && Distinct(v.tree[p].names)
    requires var c := In(p, v.tree[p].names[i]);
             c in v.tree && NodeAt(objs, v, c) && freed == Without(objs, Behind(objs, v, c))
    requires NodeAt(freed, v, p) && StructOf(freed, v, p) == StructOf(objs, v, p)
    ensures var (c, d, chain) := (In(p, v.tree[p].names[i]), StructOf(freed, v, p), v.chain[p]);
            && d in freed && freed[d].DirStruct? && freed[d].numEntries > 0
            && chain[i] in freed && freed[chain[i]].Entry? && chain[i] != d
            && (i > 0 ==> chain[i - 1] in freed && freed[chain[i - 1]].Entry? && chain[i - 1] != d)
            && Unlinked(objs, v, p, i, CutEntry(freed, d, chain, i) - {v.at[c]})
  {
    hide FileAt, Distinct;
    var (c, d, chain, names) := (In(p, v.tree[p].names[i]), StructOf(freed, v, p), v.chain[p], v.tree[p].names);
    EntryCanGo(freed, v, p, i);
    var after := CutEntry(freed, d, chain, i) - {v.at[c]};
    assert EntryAt(freed, v, p, names, i);
    if i > 0 {
      assert EntryAt(freed, v, p, names, i - 1);
    }
    forall a | a in objs && a in v.role && v.role[a].path != c
               && a != d && a != chain[i] && (i > 0 ==> a != chain[i - 1])
      ensures a in after && after[a] == objs[a]
    {
      if a in Behind(objs, v, c) {
        BehindRoles(objs, v, c, a);
      }
    }
  }

  // ---- A file changes -----------------------------------------------------

  /** Only records of file `p` changed. */
  ghost predicate OnlyFile(objs: Store, v: View, p: Path, objs': Store, v': View, bytes: seq<byte>)
    requires p in v.tree
  {
    && v'.tree == v.tree[p := File(bytes)] && v'.at == v.at && v'.chain == v.chain
    && (forall a :: a in objs && a in v.role && v.role[a].path != p ==>
          a in objs' && objs'[a] == objs[a] && a in v'.role && v'.role[a] == v.role[a])
  }

  lemma FileFrames(objs: Store, v: View, p: Path, objs': Store, v': View, bytes: seq<byte>, q: Path)
    requires p in v.tree && OnlyFile(objs, v, p, objs', v', bytes)
    requires q in v.tree && q != p && NodeAt(objs, v, q)
    ensures NodeAt(objs', v', q)
  {
    UntouchedStays(objs, v, objs', v', q);
  }

  lemma FileKeepsTree(t: Tree, p: Path, bytes: seq<byte>)
    requires TreeOk(t) && p in t && t[p].File?
    ensures TreeOk(t[p := File(bytes)])
  {
    var after := t[p := File(bytes)];
    assert forall q :: IsDir(after, q) <==> IsDir(t, q);
    assert forall q :: q in after <==> q in t;
  }

  lemma FileChanges(objs: Store, root: nat, v: View, p: Path, objs': Store, v': View, bytes: seq<byte>)
    requires Shape(objs, root, v) && p in v.tree && v.tree[p].File?
    requires OnlyFile(objs, v, p, objs', v', bytes) && NodeAt(objs', v', p)
    ensures Shape(objs', root, v')
  {
    FileKeepsTree(v.tree, p, bytes);
    forall q | q in v.tree && q != p ensures NodeAt(objs', v', q) {
      FileFrames(objs, v, p, objs', v', bytes, q);
    }
  }

  /** What a successful write leaves of a file: the new bytes in place, all other old bytes kept; a gap is
      unspecified. */
  ghost predicate Written(before: seq<byte>, offset: nat, data: seq<byte>, after: seq<byte>) {
    && |after| == (if offset + |data| > |before| then offset + |data| else |before|)
    && after[offset..offset + |data|] == data
    && forall i :: 0 <= i < |before| && !(offset <= i < offset + |data|) ==> after[i] == before[i]
  }

  /** The view after the data of file `p` became `bytes`, kept in the records `fd` and `data`. */
  function FileView(v: View, p: Path, bytes: seq<byte>, fd: nat, data: nat): View {
    v.(tree := v.tree[p := File(bytes)], role := v.role[fd := DataOf(p)][data := BufferOf(p)])
  }

  /** File `p` as `fd` and `data` hold it. */
  ghost predicate Holds(objs: Store, v: View, p: Path, fd: nat, bytes: seq<byte>)
    requires p in v.at
  {
    && v.at[p] in objs && objs[v.at[p]].Node? && objs[v.at[p]].flags == FS_FILE
    && objs[v.at[p]].ptr == fd && objs[v.at[p]].length == |bytes|
    && fd != NULL && fd in objs && objs[fd].FileData? && objs[fd].data in objs && objs[objs[fd].data].Buffer?
    && fd != objs[fd].data && v.at[p] != fd && v.at[p] != objs[fd].data
    && objs[fd].size == |bytes| <= objs[fd].capacity == |objs[objs[fd].data].bytes|
    && 0 < objs[fd].capacity && Paid(objs[fd])
    && objs[objs[fd].data].bytes[..|bytes|] == bytes
  }

  /** The records of file `p` may change as long as they hold the new bytes; records of other nodes may not. */
  lemma FileHolds(objs: Store, root: nat, v: View, p: Path, objs': Store, fd: nat, bytes: seq<byte>)
    requires Shape(objs, root, v) && p in v.tree && v.tree[p].File? && NodeAt(objs, v, p)
    requires Holds(objs', v, p, fd, bytes)
    requires forall a :: a in objs && a in v.role && v.role[a].path != p ==> a in objs' && objs'[a] == objs[a]
    requires forall a :: a in {fd, objs'[fd].data} && a in objs ==> a in v.role && v.role[a].path == p
    ensures Shape(objs', root, FileView(v, p, bytes, fd, objs'[fd].data))
  {
    hide DirAt, EntryAt, TreeOk;
    FileChanges(objs, root, v, p, objs', FileView(v, p, bytes, fd, objs'[fd].data), bytes);
  }

  /** Doubles the capacity until it is enough. */
  function Grown(capacity: nat, size: nat): (r: nat)
    requires 0 < capacity
    ensures size <= r && capacity <= r
    ensures capacity < size ==> r < 2 * size && 2 * capacity <= r
    decreases if capacity < size then size - capacity else 0
  {
    if capacity < size then Grown(2 * capacity, size) else capacity
  }

  function Power2(k: nat): nat {
    if k == 0 then 1 else 2 * Power2(k - 1)
  }

  /** It is the first doubling that is enough. */
  lemma {:induction false} GrownIsFirstDoubling(capacity: nat, size: nat) returns (k: nat)
    requires 0 < capacity
    ensures Grown(capacity, size) == capacity * Power2(k) && size <= capacity * Power2(k)
    ensures k > 0 ==> capacity * Power2(k - 1) < size
    decreases if capacity < size then size - capacity else 0
  {
    if capacity < size {
      var j := GrownIsFirstDoubling(2 * capacity, size);
      k := j + 1;
      Regrouped(capacity, Power2(j));
      if j > 0 {
        Regrouped(capacity, Power2(j - 1));
      }
    } else {
      k := 0;
    }
  }

  lemma Regrouped(a: nat, b: nat)
    ensures 2 * a * b == a * (2 * b)
  {
  }

  lemma DoubleIsMultiple(n: nat)
    requires n % 8 == 0
    ensures (2 * n) % 8 == 0
  {
    var eighth := n / 8;
    assert 2 * n == 8 * (2 * eighth);
  }

  lemma {:induction false} GrownMultiple(capacity: nat, size: nat)
    requires 0 < capacity && capacity % 8 == 0
    ensures Grown(capacity, size) % 8 == 0
    decreases if capacity < size then size - capacity else 0
  {
    if capacity < size {
      DoubleIsMultiple(capacity);
      GrownMultiple(2 * capacity, size);
    }
  }

  /** The doubled capacity of a buffer that fits the heap is a size `kmalloc` can round up. */
  lemma GrownFits(capacity: nat, size: nat)
    requires 0 < capacity <= 0x1_0000 && size <= 0x8000_0000
    ensures Grown(capacity, size) <= U32_LIMIT - 8
  {
    if 8 * capacity < size {
      assert Grown(capacity, size) == Grown(2 * capacity, size) == Grown(4 * capacity, size)
             == Grown(8 * capacity, size);
      GrownMultiple(8 * capacity, size);
    }
  }

  /** `memcpy` of `data` to `offset`. */
  function Splice(bytes: seq<byte>, offset: nat, data: seq<byte>): (r: seq<byte>)
    requires offset + |data| <= |bytes|
    ensures |r| == |bytes|
  {
    bytes[..offset] + data + bytes[offset + |data|..]
  }

  /** The buffer after a resize: the first `size` bytes copied, the rest as found. */
  lemma SpliceWrites(before: seq<byte>, buffer: seq<byte>, offset: nat, data: seq<byte>)
    requires |before| <= |buffer| && offset + |data| <= |buffer| && buffer[..|before|] == before
    ensures var size := if offset + |data| > |before| then offset + |data| else |before|;
            Written(before, offset, data, Splice(buffer, offset, data)[..size])
  {
    var size := if offset + |data| > |before| then offset + |data| else |before|;
    var after := Splice(buffer, offset, data)[..size];
    forall i | 0 <= i < |data| ensures after[offset + i] == data[i] {
    }
    assert after[offset..offset + |data|] == data;
    forall i | 0 <= i < |before| && !(offset <= i < offset + |data|) ensures after[i] == before[i] {
      assert before[i] == buffer[i];
    }
  }

  // ---- What resizing costs over many writes --------------------------------

  /** Size and capacity of a file, and the bytes its resizes have copied. */
  datatype Growth = Growth(size: nat, capacity: nat, copied: nat)

  function Meter(fd: Obj): Growth
    requires fd.FileData?
  {
    Growth(fd.size, fd.capacity, fd.copied)
  }

  /** A write up to `end`, when memory for it is there. */
  function AfterWrite(g: Growth, end: nat): Growth
    requires 0 < g.capacity
  {
    if end <= g.size then g
    else if end <= g.capacity then g.(size := end)
    else Growth(end, Grown(g.capacity, end), g.copied + g.size)
  }

  function AfterWrites(g: Growth, ends: seq<nat>): (r: Growth)
    requires 0 < g.capacity
    ensures 0 < r.capacity
  {
    if ends == [] then g else AfterWrite(AfterWrites(g, ends[..|ends| - 1]), ends[|ends| - 1])
  }

  /** Over any run of writes the bytes copied are paid for by the capacity gained. */
  lemma {:induction false} CopyingIsAmortised(g: Growth, ends: seq<nat>)
    requires 0 < g.capacity && g.size <= g.capacity
    ensures var r := AfterWrites(g, ends);
            && r.size <= r.capacity && g.capacity <= r.capacity
            && r.copied - g.copied <= r.capacity - g.capacity
  {
    if ends != [] {
      CopyingIsAmortised(g, ends[..|ends| - 1]);
    }
  }
}
