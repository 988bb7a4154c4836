/**
 The file commands of the shell: paths to nodes, and what they then do to the
 tree.
 */
module FsCommands {
  import opened Machine
  import opened HeapModel
  import opened FsTree
  import opened FsModel
  import opened PathModel
  import opened SkullFs
  import opened Libc
  import opened Words
  import opened PathWalk

  /** The directory and the name a path argument gives a command, when the directory is there. */
  function Target(t: Tree, path: string): Option<Path> {
    var parent := ParentResolved(t, path);
    if parent.Some? && IsDir(t, parent.value) then parent else None
  }

  /** A command that makes an entry may: the directory is there and the name is free. */
  predicate Creatable(t: Tree, path: string) {
    Target(t, path).Some? && Find(t, Target(t, path).value, FileName(path)) == None
  }

  /** What `rm` may remove. */
  predicate Removable(t: Tree, path: string) {
    Target(t, path).Some? && Deletable(t, Target(t, path).value, FileName(path))
  }

  /** What `rm` is not given: `.` or `..` of a directory with at most two entries. */
  predicate RemovesNoSelf(t: Tree, path: string) {
    Target(t, path).Some? ==> KeepsItself(t, Target(t, path).value, FileName(path))
  }

  // ---- Effects ----------------------------------------------------------------

  ghost predicate MakesDir(s: Snapshot, path: string, ok: bool, after: Snapshot) {
    && ok == (Creatable(s.v.tree, path) && DirGrants(s.blocks).Some?)
    && after.inode == (if Creatable(s.v.tree, path) then InodeAfter(s.blocks, s.inode) else s.inode)
    && if ok then
         DirCreated(s.objs, s.v, s.blocks, s.inode, Target(s.v.tree, path).value, FileName(path), after.objs, after.v,
                    after.blocks)
       else Unchanged(s, after)
  }

  ghost predicate MakesFile(s: Snapshot, path: string, ok: bool, after: Snapshot) {
    && ok == (Creatable(s.v.tree, path) && FileGrants(s.blocks).Some?)
    && after.inode == (if Creatable(s.v.tree, path) then InodeAfter(s.blocks, s.inode) else s.inode)
    && if ok then
         && FileCreated(s.objs, s.v, s.blocks, s.inode, Target(s.v.tree, path).value, FileName(path), after.objs,
                        after.v, after.blocks)
         && var file := FileGrants(s.blocks).value.node;
            file in after.objs && after.objs[file] == EmptyFile(FileName(path), s.inode)
       else Unchanged(s, after)
  }

  ghost predicate Removes(s: Snapshot, path: string, ok: bool, after: Snapshot) {
    && ok == Removable(s.v.tree, path) && after.inode == s.inode
    && if ok then
         Removed(s.objs, s.v, Target(s.v.tree, path).value, FileName(path), s.blocks, after.objs, after.v, after.blocks)
       else after.objs == s.objs && after.v == s.v && after.blocks == s.blocks
  }

  /** `mkdir` */
  method Mkdir(fs: FileSystem, path: string) returns (ok: bool)
    requires fs.Valid() && fs.root != NULL && NUL !in path && |FileName(path)| <= NAME_MAX
    modifies fs, fs.heap, fs.heap.mem
    ensures fs.Valid() && fs.root == old(fs.root)
    ensures MakesDir(old(Now(fs)), path, ok, Now(fs))
  {
    hide Inv;
    var parent := GetParentDir(fs, path);
    var name := GetFilename(path);
    ghost var p := ParentResolved(fs.v.tree, path);
    if parent == NULL {
      return false;
    }
    var newDir := fs.CreateDir(parent, name, p.value);
    ok := newDir != NULL;
  }

  /** `touch` */
  method Touch(fs: FileSystem, path: string) returns (ok: bool)
    requires fs.Valid() && fs.root != NULL && NUL !in path && |FileName(path)| <= NAME_MAX
    modifies fs, fs.heap, fs.heap.mem
    ensures fs.Valid() && fs.root == old(fs.root)
    ensures MakesFile(old(Now(fs)), path, ok, Now(fs))
  {
    hide Inv;
    var parent := GetParentDir(fs, path);
    var name := GetFilename(path);
    ghost var p := ParentResolved(fs.v.tree, path);
    if parent == NULL {
      return false;
    }
    var file := fs.CreateFile(parent, name, p.value);
    ok := file != NULL;
  }

  /** `rm` */
  method Rm(fs: FileSystem, path: string) returns (ok: bool)
    requires fs.Valid() && fs.root != NULL && NUL !in path && RemovesNoSelf(fs.v.tree, path)
    modifies fs, fs.heap, fs.heap.mem
    ensures fs.Valid() && fs.root == old(fs.root)
    ensures Removes(old(Now(fs)), path, ok, Now(fs))
  {
    hide Inv;
    var parent := GetParentDir(fs, path);
    var name := GetFilename(path);
    ghost var p := ParentResolved(fs.v.tree, path);
    if parent == NULL {
      return false;
    }
    var isDir := NodeIsDir(fs, parent, p.value);
    if !isDir {
      return false;
    }
    ok := fs.Delete(parent, name, p.value);
  }

  /** `(node->flags & 0x7) == FS_DIRECTORY` */
  method NodeIsDir(fs: FileSystem, node: nat, ghost p: Path) returns (b: bool)
    requires fs.Valid() && fs.Refers(node, p)
    ensures b == IsDir(fs.v.tree, p)
  {
    FlagsTell(fs.objs, fs.v, p);
    b := fs.objs[node].flags % 8 == FS_DIRECTORY;
  }

  // ---- ls -------------------------------------------------------------------

  /** The lines of a listing: each name, marked when it means a directory. */
  function Lines(t: Tree, p: Path, names: seq<string>): seq<string> {
    if names == [] then []
    else
      var q := Find(t, p, names[0]);
      [names[0] + if q.Some? && IsDir(t, q.value) then "/" else ""] + Lines(t, p, names[1..])
  }

  lemma {:induction false} LinesMore(t: Tree, p: Path, names: seq<string>, i: nat)
    requires i < |names|
    ensures var q := Find(t, p, names[i]);
            Lines(t, p, names[..i + 1]) ==
            Lines(t, p, names[..i]) + [names[i] + if q.Some? && IsDir(t, q.value) then "/" else ""]
  {
    if i > 0 {
      LinesMore(t, p, names[1..], i - 1);
      assert names[..i + 1][1..] == names[1..][..i] && names[..i][1..] == names[1..][..i - 1];
    }
  }

  /** The loop over indices comes to an end, and has then listed `.`, `..` and every entry once. */
  method ListDirectory(fs: FileSystem, node: nat, ghost p: Path) returns (lines: seq<string>)
    requires fs.Valid() && fs.Refers(node, p) && node != NULL && IsDir(fs.v.tree, p)
    ensures lines == Lines(fs.v.tree, p, Listing(fs.v.tree, p))
  {
    hide Inv;
    lines := [];
    ghost var names := Listing(fs.v.tree, p);
    var index := 0;
    var entry := fs.Readdir(node, index, p);
    while entry.Some?
      invariant index <= |names| && lines == Lines(fs.v.tree, p, names[..index])
      invariant entry.Some? <==> index < |names|
      invariant entry.Some? ==> entry.value.name == names[index]
      decreases |names| - index
    {
      LinesMore(fs.v.tree, p, names, index);
      var found := fs.Finddir(node, entry.value.name, p);
      var isDir := false;
      if found != NULL {
        isDir := NodeIsDir(fs, found, Find(fs.v.tree, p, entry.value.name).value);
      }
      lines := lines + [entry.value.name + if isDir then "/" else ""];
      index := index + 1;
      entry := fs.Readdir(node, index, p);
    }
    assert names[..index] == names;
  }

  /** What `ls` shows: the listing of the directory a path leads to, or of the root. */
  function Listed(t: Tree, path: Option<string>): Option<seq<string>> {
    var p := if path.None? then Some(Root) else Resolved(t, path.value);
    if p.Some? && IsDir(t, p.value) then Some(Lines(t, p.value, Listing(t, p.value))) else None
  }

  /** `ls` */
  method Ls(fs: FileSystem, path: Option<string>) returns (lines: Option<seq<string>>)
    requires fs.Valid() && fs.root != NULL && (path.Some? ==> NUL !in path.value)
    ensures lines == Listed(fs.v.tree, path)
  {
    RootIsReferred(fs);
    hide Inv;
    var dir := fs.root;
    ghost var p := Root;
    if path.Some? {
      dir := ResolvePath(fs, path.value);
      if dir == NULL {
        return None;
      }
      p := Resolved(fs.v.tree, path.value).value;
    }
    var isDir := NodeIsDir(fs, dir, p);
    if !isDir {
      return None;
    }
    var listing := ListDirectory(fs, dir, p);
    lines := Some(listing);
  }

  lemma RootIsReferred(fs: FileSystem)
    requires fs.Valid()
    ensures fs.Refers(fs.root, Root)
  {
  }

  // ---- cat ------------------------------------------------------------------

  /** What `cat` shows: the bytes of a file in the root directory. */
  function Shown(t: Tree, name: string): Option<seq<byte>> {
    var q := Find(t, Root, name);
    if q.Some? && q.value in t && t[q.value].File? then Some(t[q.value].bytes) else None
  }

  lemma FileFits(bs: seq<Block>, objs: Store, root: nat, v: View, p: Path)
    requires Tiled(bs) && Inv(objs, Live(bs), root, v) && p in v.tree && v.tree[p].File?
    ensures NodeAt(objs, v, p) && objs[v.at[p]].length == |v.tree[p].bytes| <= HEAP_SIZE
  {
    assert NodeAt(objs, v, p);
    if objs[v.at[p]].ptr != NULL {
      CapacityFits(bs, objs, objs[v.at[p]].ptr);
    }
  }

  /** `cat`, reading through a buffer of 256 bytes. */
  method Cat(fs: FileSystem, name: string) returns (shown: Option<seq<byte>>)
    requires fs.Valid() && fs.root != NULL
    ensures shown == Shown(fs.v.tree, name)
  {
    FlagsTell(fs.objs, fs.v, Root);
    var file := fs.Finddir(fs.root, name, Root);
    if file == NULL {
      return None;
    }
    ghost var p := Find(fs.v.tree, Root, name).value;
    var isFile := NodeIsFile(fs, file, p);
    if !isFile {
      return None;
    }
    var bytes := ReadAll(fs, file, p);
    shown := Some(bytes);
  }

  method NodeIsFile(fs: FileSystem, node: nat, ghost p: Path) returns (b: bool)
    requires fs.Valid() && fs.Refers(node, p)
    ensures b == fs.v.tree[p].File?
  {
    FlagsTell(fs.objs, fs.v, p);
    b := fs.objs[node].flags % 8 == FS_FILE;
  }

  method ReadAll(fs: FileSystem, file: nat, ghost p: Path) returns (shown: seq<byte>)
    requires fs.Valid() && fs.Refers(file, p) && file != NULL && fs.v.tree[p].File?
    ensures shown == fs.v.tree[p].bytes
  {
    hide Inv;
    FileFits(fs.heap.blocks, fs.objs, fs.root, fs.v, p);
    ghost var bytes := fs.v.tree[p].bytes;
    var size := fs.objs[file].length;
    var total := 0;
    shown := [];
    while total < size
      invariant total <= size == |bytes| <= HEAP_SIZE && shown == bytes[..total]
    {
      var count := if size - total > 256 then 256 else size - total;
      var data := fs.Read(file, total, count, p);
      if |data| == 0 {
        break;
      }
      shown := shown + data;
      total := total + |data|;
    }
    assert bytes[..total] == bytes;
  }

  // ---- The nodes of paths, read and written anywhere ---------------------------

  /** What reading `size` bytes from `offset` gives: nothing if the path does not lead to a file. */
  function ReadThere(t: Tree, path: string, offset: nat, size: nat): seq<byte> {
    var q := Resolved(t, path);
    if q.Some? && q.value in t && t[q.value].File? then Part(t[q.value].bytes, offset, size) else []
  }

  /** `read_fs` on the node of a path. */
  method ReadAt(fs: FileSystem, path: string, offset: nat, size: nat) returns (data: seq<byte>)
    requires fs.Valid() && fs.root != NULL && NUL !in path && offset + size < U32_LIMIT
    ensures data == ReadThere(fs.v.tree, path, offset, size)
  {
    hide Inv;
    var node := ResolvePath(fs, path);
    if node == NULL {
      return [];
    }
    ghost var q := Resolved(fs.v.tree, path).value;
    var isFile := NodeIsFile(fs, node, q);
    if !isFile {
      return [];
    }
    data := fs.Read(node, offset, size, q);
  }

  /** The path leads to a file, and the memory for a write is there. */
  predicate WriteFitsThere(s: Snapshot, path: string, end: nat) {
    Resolved(s.v.tree, path).Some? && CanWrite(s, Resolved(s.v.tree, path).value, end)
  }

  ghost predicate WritesThere(s: Snapshot, path: string, offset: nat, data: seq<byte>, after: Snapshot) {
    if Resolved(s.v.tree, path).Some? then
      WritesTo(s, Resolved(s.v.tree, path).value, offset, data, WriteFitsThere(s, path, offset + |data|), after)
    else after == s
  }

  /** `write_fs` on the node of a path: it reports all bytes as written exactly if it wrote them, or there were none. */
  method WriteAt(fs: FileSystem, path: string, offset: nat, data: seq<byte>) returns (ok: bool)
    requires fs.Valid() && fs.root != NULL && NUL !in path && offset + |data| <= 0x8000_0000
    modifies fs, fs.heap, fs.heap.mem
    ensures fs.Valid() && fs.root == old(fs.root)
    ensures ok <==> data == [] || WriteFitsThere(old(Now(fs)), path, offset + |data|)
    ensures WritesThere(old(Now(fs)), path, offset, data, Now(fs))
  {
    hide Inv;
    var node := ResolvePath(fs, path);
    if node == NULL {
      return data == [];
    }
    ghost var q := Resolved(fs.v.tree, path).value;
    var isFile := NodeIsFile(fs, node, q);
    if !isFile {
      return data == [];
    }
    var n, fits := fs.Write(node, offset, data, q);
    ok := n == |data|;
  }

  // ---- write ----------------------------------------------------------------

  function ToBytes(s: string): (r: seq<byte>)
    ensures |r| == |s|
  {
    seq(|s|, i requires 0 <= i < |s| => s[i] as int % 0x100)
  }

  /** The text of `write`: the arguments with single blanks between them, built up in a buffer. */
  method JoinWords(words: seq<string>) returns (text: string)
    requires |Joined(words)| <= 255 && forall w :: w in words ==> NUL !in w
    ensures text == Joined(words)
  {
    hide CStr;
    var buf := new char[256](_ => NUL);
    var i := 0;
    assert buf[0] == NUL;
    CStrIs(buf[..], 0);
    while i < |words|
      invariant i <= |words| && fresh(buf)
      invariant Terminated(buf[..]) && CStr(buf[..]) == Joined(words[..i])
    {
      JoinedGrows(words, i);
      if i > 0 {
        Strcat(buf, " ");
      }
      var len := Strlen(buf);
      Strncat(buf, words[i], 255 - len);
      i := i + 1;
    }
    assert words[..i] == words;
    assert buf[0..] == buf[..];
    text := Text(buf, 0);
  }

  /** The tree and the path `write` works on: an existing node, or a file it creates. */
  function Opened(t: Tree, path: string): Option<(Tree, Path)> {
    if Resolved(t, path).Some? then Some((t, Resolved(t, path).value))
    else if Creatable(t, path) then
      Some((Link(t, Target(t, path).value, FileName(path), File([])), In(Target(t, path).value, FileName(path))))
    else None
  }

  predicate OpenFits(s: Snapshot, path: string) {
    Resolved(s.v.tree, path).Some? || (Creatable(s.v.tree, path) && FileGrants(s.blocks).Some?)
  }

  /** The state in which `write` has the node it works on. */
  ghost predicate Opens(s: Snapshot, path: string, ok: bool, mid: Snapshot) {
    if Resolved(s.v.tree, path).Some? then ok && mid == s
    else MakesFile(s, path, ok, mid)
  }

  method OpenForWrite(fs: FileSystem, path: string) returns (file: nat)
    requires fs.Valid() && fs.root != NULL && NUL !in path && |FileName(path)| <= NAME_MAX
    modifies fs, fs.heap, fs.heap.mem
    ensures fs.Valid() && fs.root == old(fs.root)
    ensures file != NULL <==> OpenFits(old(Now(fs)), path)
    ensures Opens(old(Now(fs)), path, file != NULL, Now(fs))
    ensures file != NULL ==> Opened(old(fs.v).tree, path).Some?
                             && fs.Refers(file, Opened(old(fs.v).tree, path).value.1)
  {
    hide Inv;
    file := ResolvePath(fs, path);
    if file != NULL {
      return;
    }
    var parent := GetParentDir(fs, path);
    var name := GetFilename(path);
    if parent == NULL {
      return NULL;
    }
    file := fs.CreateFile(parent, name, ParentResolved(fs.v.tree, path).value);
  }

  /** In the tree only file `q` changed, to what a write of `data` at `offset` leaves. */
  ghost predicate WroteTo(t: Tree, q: Path, offset: nat, data: seq<byte>, after: Tree) {
    && q in t && t[q].File? && q in after && after[q].File?
    && after == t[q := after[q]] && Written(t[q].bytes, offset, data, after[q].bytes)
  }

  /** The node at `q` can be written up to `end`: it is a file, and the memory is there. */
  predicate CanWrite(s: Snapshot, q: Path, end: nat) {
    q in s.v.tree && q in s.v.at && s.v.tree[q].File? && WriteFits(s.objs, s.v.at[q], end, s.blocks)
  }

  /** A write to the node at `q`: it succeeds exactly for a file whose memory for the data is there. */
  ghost predicate WritesTo(s: Snapshot, q: Path, offset: nat, data: seq<byte>, ok: bool, after: Snapshot) {
    && q in s.v.tree && q in s.v.at && after.inode == s.inode && ok == CanWrite(s, q, offset + |data|)
    && if ok then Wrote(s.objs, s.blocks, s.v, s.v.at[q], q, offset, data, after.objs, after.blocks, after.v)
       else Unchanged(s, after)
  }

  ghost predicate Writes(s: Snapshot, path: string, data: seq<byte>, ok: bool, after: Snapshot) {
    if OpenFits(s, path) then
      Opened(s.v.tree, path).Some?
      && exists mid :: Opens(s, path, true, mid) && WritesTo(mid, Opened(s.v.tree, path).value.1, 0, data, ok, after)
    else !ok && Opens(s, path, false, after)
  }

  /** When `write` succeeds, in terms of the state it starts from. */
  predicate WriteSucceeds(s: Snapshot, path: string, size: nat) {
    var (t, q) := (s.v.tree, Resolved(s.v.tree, path));
    if q.Some? then CanWrite(s, q.value, size)
    else
      && Creatable(t, path) && FileGrants(s.blocks).Some? && FirstCapacity(size) < U32_LIMIT
      && DataGrants(FileGrants(s.blocks).value.blocks, FirstCapacity(size)).Some?
  }

  /** Exactly when the file is there or can be made, and the memory for the text is there too. */
  lemma WritesIff(s: Snapshot, path: string, data: seq<byte>, ok: bool, after: Snapshot)
    requires Writes(s, path, data, ok, after) && |data| < U32_LIMIT
    ensures ok <==> WriteSucceeds(s, path, |data|)
  {
    hide Creatable, Resolved;
  }

  /** A `write` that succeeds leaves the text in the file, and one that fails at most an empty file. */
  lemma WritesMean(s: Snapshot, path: string, data: seq<byte>, ok: bool, after: Snapshot)
    requires Writes(s, path, data, ok, after)
    ensures ok ==> Opened(s.v.tree, path).Some?
                   && WroteTo(Opened(s.v.tree, path).value.0, Opened(s.v.tree, path).value.1, 0, data, after.v.tree)
    ensures !ok ==> after.v.tree == s.v.tree
                    || (Resolved(s.v.tree, path).None? && Opened(s.v.tree, path).Some?
                        && after.v.tree == Opened(s.v.tree, path).value.0)
  {
    hide Creatable, Resolved;
    if OpenFits(s, path) {
      var (start, q) := Opened(s.v.tree, path).value;
      var mid :| Opens(s, path, true, mid) && WritesTo(mid, q, 0, data, ok, after);
      assert mid.v.tree == start;
    }
  }

  /** The words behind the path of a `write`: the shell passes no empty ones, and at least one. */
  predicate Texts(words: seq<string>) {
    words != [] && (forall w :: w in words ==> w != "" && NUL !in w) && |Joined(words)| <= 255
  }

  /** `write` with a path and a text. */
  method WriteText(fs: FileSystem, path: string, words: seq<string>) returns (ok: bool)
    requires fs.Valid() && fs.root != NULL && NUL !in path && |FileName(path)| <= NAME_MAX && Texts(words)
    modifies fs, fs.heap, fs.heap.mem
    ensures fs.Valid() && fs.root == old(fs.root)
    ensures Writes(old(Now(fs)), path, ToBytes(Joined(words)), ok, Now(fs))
    ensures ok <==> WriteSucceeds(old(Now(fs)), path, |Joined(words)|)
  {
    hide Inv;
    var file := OpenForWrite(fs, path);
    if file == NULL {
      ok := false;
    } else {
      ok := WriteTo(fs, file, words, Opened(old(fs.v).tree, path).value.1);
    }
    WritesIff(old(Now(fs)), path, ToBytes(Joined(words)), ok, Now(fs));
  }

  method WriteTo(fs: FileSystem, file: nat, words: seq<string>, ghost q: Path) returns (ok: bool)
    requires fs.Valid() && fs.Refers(file, q) && file != NULL && Texts(words)
    modifies fs, fs.heap, fs.heap.mem
    ensures fs.Valid() && fs.root == old(fs.root)
    ensures WritesTo(old(Now(fs)), q, 0, ToBytes(Joined(words)), ok, Now(fs))
  {
    hide Inv;
    var isFile := NodeIsFile(fs, file, q);
    if !isFile {
      return false;
    }
    JoinedIsText(words);
    var text := JoinWords(words);
    var n, fits := fs.Write(file, 0, ToBytes(text), q);
    ok := n == |text|;
  }

  lemma JoinedIsText(words: seq<string>)
    requires Texts(words)
    ensures Joined(words) != ""
  {
    assert words[|words| - 1] in words;
  }
}
