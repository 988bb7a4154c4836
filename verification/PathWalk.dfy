/**
 The path walker: a copy of the path is cut at its slashes in place, and each
 component is looked up in the directory reached so far.
 */
module PathWalk {
  import opened Machine
  import opened FsTree
  import opened FsModel
  import opened PathModel
  import opened SkullFs
  import opened Libc

  /** Bytes of a path that the 256-byte copy can hold. */
  const COPY_MAX: nat := 255

  /** The part of a path that is walked: one leading slash dropped, the rest cut to the copy. */
  function Walked(path: string): (s: string)
    ensures |s| <= COPY_MAX
  {
    var rest := if path != "" && path[0] == SLASH then path[1..] else path;
    if |rest| <= COPY_MAX then rest else rest[..COPY_MAX]
  }

  function Resolved(t: Tree, path: string): Option<Path> {
    Walk(t, Some(Root), Components(Walked(path)))
  }

  /** The text whose node is the parent directory. */
  function ParentWalked(path: string): string {
    var text := ParentText(path);
    if |text| <= COPY_MAX then text else text[..COPY_MAX]
  }

  function ParentResolved(t: Tree, path: string): Option<Path> {
    Resolved(t, ParentWalked(path))
  }

  // ---- What they mean ------------------------------------------------------

  /** For a path of at most 255 bytes, resolving is the left fold over its non-empty components. */
  lemma ResolvedIsFold(t: Tree, path: string)
    requires |path| <= COPY_MAX
    ensures Resolved(t, path) == Walk(t, Some(Root), Components(path))
  {
    if path != "" && path[0] == SLASH {
      LeadingSlash(path);
    }
  }

  /** A path of at most 255 bytes leads to what its file name means in its parent, or to the parent if it ends in a
      slash. */
  lemma ResolvedBySteps(t: Tree, path: string)
    requires |path| <= COPY_MAX
    ensures Resolved(t, path) ==
            if FileName(path) == "" then ParentResolved(t, path)
            else PathModel.Step(t, ParentResolved(t, path), FileName(path))
  {
    var parent := ParentText(path);
    ResolvedIsFold(t, path);
    ResolvedIsFold(t, parent);
    ComponentsSplit(path);
    WalkConcat(t, Some(Root), Components(parent), Flush(FileName(path)));
    if FileName(path) != "" {
      assert Flush(FileName(path)) == [FileName(path)] && [FileName(path)][1..] == [];
    }
  }

  /** A path that leads somewhere leads where its normal form leads. */
  lemma ResolvedIsNormal(t: Tree, path: string)
    requires TreeOk(t) && |path| <= COPY_MAX && Resolved(t, path).Some?
    ensures Resolved(t, path).value == Normal(Root, Components(path))
    ensures Walk(t, Some(Root), Names(Normal(Root, Components(path)))) == Resolved(t, path)
  {
    ResolvedIsFold(t, path);
    WalkIsNormal(t, Root, Components(path));
    NormalisationIsSound(t, Components(path));
  }

  // ---- The walker ----------------------------------------------------------

  /** The copy `buf` of `text` when the slashes before `token` may have been overwritten. */
  ghost predicate CopyOf(buf: seq<char>, text: string, component: nat, token: nat) {
    && |buf| == COPY_MAX + 1 && |text| <= COPY_MAX && component <= token <= |text|
    && (forall i :: token <= i < |text| ==> buf[i] == text[i])
    && (forall i :: component <= i < token ==> buf[i] == text[i])
    && (forall i :: |text| <= i < |buf| ==> buf[i] == NUL)
  }

  lemma ComponentText(buf: seq<char>, text: string, component: nat, token: nat)
    requires CopyOf(buf, text, component, token) && NUL !in text
    ensures Terminated(buf[component..]) && CStr(buf[component..][token - component := NUL]) == text[component..token]
    ensures token == |text| ==> CStr(buf[component..]) == text[component..token]
  {
    var tail := buf[component..];
    var n := token - component;
    assert tail[|text| - component] == NUL;
    assert tail[n := NUL][..n] == text[component..token];
    CStrIs(tail[n := NUL], n);
    if token == |text| {
      assert tail[..n] == text[component..token];
      CStrIs(tail, n);
    }
  }

  /** What is left to walk when the text was read up to `token` and the component began at `component`. */
  function Remaining(t: Tree, cur: Option<Path>, text: string, component: nat, token: nat): Option<Path>
    requires component <= token <= |text|
  {
    Walk(t, cur, Scan(text[token..], text[component..token]))
  }

  /** One more character of the text is read. */
  lemma RemainingMore(t: Tree, cur: Path, text: string, component: nat, token: nat)
    requires component <= token < |text|
    ensures text[token] == SLASH ==>
              Remaining(t, Some(cur), text, component, token)
              == Remaining(t, Walk(t, Some(cur), Flush(text[component..token])), text, token + 1, token + 1)
    ensures text[token] != SLASH ==>
              Remaining(t, Some(cur), text, component, token) == Remaining(t, Some(cur), text, component, token + 1)
  {
    assert text[token..][1..] == text[token + 1..];
    assert text[component..token] + [text[token]] == text[component..token + 1];
    assert text[token + 1..token + 1] == "";
    WalkConcat(t, Some(cur), Flush(text[component..token]), Scan(text[token + 1..], ""));
  }

  lemma Reached(fs: FileSystem, current: nat, cur: Path)
    requires fs.Valid() && fs.Refers(current, cur)
    ensures current in fs.objs && fs.objs[current].Node?
    ensures fs.objs[current].flags % 8 == FS_DIRECTORY <==> IsDir(fs.v.tree, cur)
  {
    hide Inv, NodeAt;
    EveryNode(fs.objs, HeapModel.Live(fs.heap.blocks), fs.root, fs.v, cur);
    FlagsTell(fs.objs, fs.v, cur);
  }

  /** Looks one component up, if it is not empty and there is a directory to look in. */
  method Enter(fs: FileSystem, current: nat, name: string, ghost cur: Path) returns (next: nat)
    requires fs.Valid() && fs.Refers(current, cur) && current != NULL && name != ""
    ensures match PathModel.Step(fs.v.tree, Some(cur), name)
            case None => next == NULL
            case Some(q) => next != NULL && fs.Refers(next, q)
  {
    hide Inv;
    Reached(fs, current, cur);
    if fs.objs[current].flags % 8 != FS_DIRECTORY {
      return NULL;
    }
    next := fs.Finddir(current, name, cur);
  }

  /** `node` is what `there` says: NULL for nothing. */
  ghost predicate Answers(fs: FileSystem, node: nat, there: Option<Path>)
    reads fs
  {
    match there
    case None => node == NULL
    case Some(q) => node != NULL && fs.Refers(node, q)
  }

  lemma WalkFlush(t: Tree, cur: Path, name: string)
    ensures Walk(t, Some(cur), Flush(name)) == if name == "" then Some(cur) else PathModel.Step(t, Some(cur), name)
  {
    if name != "" {
      assert [name][1..] == [];
    }
  }

  /** Looks up the component that ends at `token`, whose text ends there in the copy too. */
  method LookUp(fs: FileSystem, buf: array<char>, component: nat, current: nat, ghost name: string,
                ghost cur: Path) returns (next: nat)
    requires fs.Valid() && fs.Refers(current, cur) && current != NULL
    requires component < buf.Length && Terminated(buf[component..]) && CStr(buf[component..]) == name
    ensures Answers(fs, next, Walk(fs.v.tree, Some(cur), Flush(name)))
  {
    WalkFlush(fs.v.tree, cur, name);
    assert buf[component] == buf[component..][0];
    next := current;
    if buf[component] != NUL {
      var text := Text(buf, component);
      next := Enter(fs, current, text, cur);
    }
  }

  /** Ends the component in front of the slash at `token`, and looks it up. */
  method CutAt(fs: FileSystem, buf: array<char>, component: nat, token: nat, current: nat, ghost text: string,
               ghost cur: Path)
      returns (next: nat)
    requires fs.Valid() && fs.Refers(current, cur) && current != NULL
    requires CopyOf(buf[..], text, component, token) && token < |text| && NUL !in text && buf != fs.heap.mem as object
    modifies buf
    ensures fs.Valid() && CopyOf(buf[..], text, token + 1, token + 1)
    ensures Answers(fs, next, Walk(fs.v.tree, Some(cur), Flush(text[component..token])))
  {
    ComponentText(buf[..], text, component, token);
    ghost var was := buf[..];
    buf[token] := NUL;
    assert buf[component..] == was[component..][token - component := NUL];
    next := LookUp(fs, buf, component, current, text[component..token], cur);
  }

  method CopyPath(rest: string, ghost text: string) returns (buf: array<char>)
    requires NUL !in rest && text == if |rest| <= COPY_MAX then rest else rest[..COPY_MAX]
    ensures fresh(buf) && CopyOf(buf[..], text, 0, 0)
  {
    buf := new char[COPY_MAX + 1];
    Strncpy(buf, rest, COPY_MAX);
    buf[COPY_MAX] := NUL;
  }

  /** One round of the walker's loop. */
  method Advance(fs: FileSystem, buf: array<char>, component: nat, token: nat, current: nat, ghost text: string,
                 ghost cur: Path)
      returns (next: nat, component': nat, ghost cur': Path)
    requires fs.Valid() && fs.Refers(current, cur) && current != NULL
    requires CopyOf(buf[..], text, component, token) && token < |text| && NUL !in text && buf != fs.heap.mem as object
    modifies buf
    ensures fs.Valid() && CopyOf(buf[..], text, component', token + 1)
    ensures next == NULL ==> Remaining(fs.v.tree, Some(cur), text, component, token) == None
    ensures next != NULL ==>
              fs.Refers(next, cur') &&
              Remaining(fs.v.tree, Some(cur'), text, component', token + 1)
                  == Remaining(fs.v.tree, Some(cur), text, component, token)
  {
    RemainingMore(fs.v.tree, cur, text, component, token);
    next, component', cur' := current, component, cur;
    if buf[token] == SLASH {
      ghost var there := Walk(fs.v.tree, Some(cur), Flush(text[component..token]));
      next := CutAt(fs, buf, component, token, current, text, cur);
      component' := token + 1;
      if next == NULL {
        WalkOfNone(fs.v.tree, Scan(text[token + 1..], text[token + 1..token + 1]));
      } else {
        cur' := there.value;
      }
    }
  }

  method ResolvePath(fs: FileSystem, path: string) returns (r: nat)
    requires fs.Valid() && fs.root != NULL && NUL !in path
    ensures Answers(fs, r, Resolved(fs.v.tree, path))
  {
    var rest := if path != "" && path[0] == SLASH then path[1..] else path;
    if rest == "" {
      return fs.root;
    }
    r := WalkText(fs, rest, Walked(path));
  }

  method WalkText(fs: FileSystem, rest: string, ghost text: string) returns (r: nat)
    requires fs.Valid() && fs.root != NULL && NUL !in rest
    requires text == if |rest| <= COPY_MAX then rest else rest[..COPY_MAX]
    ensures Answers(fs, r, Walk(fs.v.tree, Some(Root), Components(text)))
  {
    var buf := CopyPath(rest, text);
    var current := fs.root;
    var token: nat, component: nat := 0, 0;
    ghost var (cur, t) := (Root, fs.v.tree);
    assert fs.Refers(current, Root) && current != NULL;
    hide Inv;
    assert text[0..0] == "" && text[0..] == text;
    while buf[token] != NUL
      invariant CopyOf(buf[..], text, component, token) && NUL !in text && fresh(buf)
      invariant fs.Valid() && fs.v.tree == t && current != NULL && fs.Refers(current, cur)
      invariant Remaining(t, Some(cur), text, component, token) == Walk(t, Some(Root), Components(text))
      decreases |text| - token
    {
      current, component, cur := Advance(fs, buf, component, token, current, text, cur);
      if current == NULL {
        return NULL;
      }
      token := token + 1;
    }
    ComponentText(buf[..], text, component, token);
    assert text[token..] == "";
    r := LookUp(fs, buf, component, current, text[component..token], cur);
  }

  // ---- Parent and file name -------------------------------------------------

  method FindLastSlash(path: string) returns (k: int)
    ensures k == LastSlash(path)
  {
    k := -1;
    var p := 0;
    while p < |path|
      invariant p <= |path| && k == LastSlash(path[..p])
    {
      LastSlashMore(path[..p], path[p]);
      assert path[..p + 1] == path[..p] + [path[p]];
      if path[p] == SLASH {
        k := p;
      }
      p := p + 1;
    }
    assert path[..p] == path;
  }

  method GetFilename(path: string) returns (name: string)
    ensures name == FileName(path)
  {
    var k := FindLastSlash(path);
    name := path[k + 1..];
  }

  /** The first `len` bytes of a path, through a buffer on the stack. */
  method Prefix(path: string, len: nat) returns (text: string)
    requires len <= |path| && len <= COPY_MAX && NUL !in path
    ensures text == path[..len]
  {
    var buf := new char[COPY_MAX + 1];
    Strncpy(buf, path, len);
    buf[len] := NUL;
    assert buf[..][..len] == path[..len];
    CStrIs(buf[..], len);
    assert buf[0..] == buf[..];
    text := Text(buf, 0);
  }

  method GetParentDir(fs: FileSystem, path: string) returns (r: nat)
    requires fs.Valid() && fs.root != NULL && NUL !in path
    ensures Answers(fs, r, ParentResolved(fs.v.tree, path))
  {
    var k := FindLastSlash(path);
    if k < 0 {
      return fs.root;
    }
    var len := if k > COPY_MAX then COPY_MAX else k;
    var text := Prefix(path, len);
    assert path[..k][..len] == path[..len];
    if len == 0 {
      return fs.root;
    }
    r := ResolvePath(fs, text);
  }
}
