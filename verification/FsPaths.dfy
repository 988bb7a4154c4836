/**
 What the commands do at the paths they are given: what is made is found
 there, what is removed is gone there, and `ls` shows what is there.
 */
module FsPaths {
  import opened Machine
  import opened FsTree
  import opened FsModel
  import opened PathModel
  import opened SkullFs
  import opened Words
  import opened PathWalk
  import opened FsCommands
  import opened FsRuns

  /** `path` is a name `x` in the directory that `dir` leads to: `dir/x`, or `x` alone in the root. */
  predicate IsPath(path: string, dir: string, x: string) {
    && x != "" && '/' !in x && |path| <= 255
    && (path == dir + "/" + x || (dir == "" && path == x))
  }

  // ---- The path's directory and its name -----------------------------------------

  lemma {:induction false} LastSlashOf(dir: string, x: string)
    requires SLASH !in x
    ensures LastSlash(dir + [SLASH] + x) == |dir|
    decreases |x|
  {
    var s := dir + [SLASH] + x;
    if x != "" {
      var front := x[..|x| - 1];
      LastSlashOf(dir, front);
      assert s[..|s| - 1] == dir + [SLASH] + front;
      assert s[|s| - 1] == x[|x| - 1];
    }
  }

  lemma {:induction false} NoLastSlash(x: string)
    requires SLASH !in x
    ensures LastSlash(x) == -1
  {
    if x != "" {
      NoLastSlash(x[..|x| - 1]);
    }
  }

  lemma PathParts(path: string, dir: string, x: string)
    requires IsPath(path, dir, x)
    ensures FileName(path) == x && ParentWalked(path) == dir
  {
    if path == dir + "/" + x {
      assert path == dir + [SLASH] + x;
      LastSlashOf(dir, x);
    } else {
      NoLastSlash(x);
    }
  }

  /** The path leads to what its name means in its directory. */
  lemma PathStep(t: Tree, path: string, dir: string, x: string)
    requires IsPath(path, dir, x)
    ensures Resolved(t, path) == PathModel.Step(t, Resolved(t, dir), x)
    ensures Target(t, path) ==
            if Resolved(t, dir).Some? && IsDir(t, Resolved(t, dir).value) then Resolved(t, dir) else None
  {
    hide Resolved, FileName, ParentWalked;
    PathParts(path, dir, x);
    ResolvedBySteps(t, path);
  }

  // ---- Walks in a larger tree -----------------------------------------------------

  /** Every node of `t` is one of `u`, and every directory still is one. */
  predicate Within(t: Tree, u: Tree) {
    forall p :: p in t ==> p in u && (t[p].Dir? ==> u[p].Dir?)
  }

  lemma {:induction false} WalkInLarger(t: Tree, u: Tree, cur: Path, comps: seq<string>)
    requires Within(t, u) && Walk(t, Some(cur), comps).Some?
    ensures Walk(u, Some(cur), comps) == Walk(t, Some(cur), comps)
    decreases |comps|
  {
    if comps != [] {
      var next := PathModel.Step(t, Some(cur), comps[0]);
      if next.None? {
        WalkOfNone(t, comps[1..]);
      } else {
        WalkInLarger(t, u, next.value, comps[1..]);
      }
    }
  }

  lemma ResolvedInLarger(t: Tree, u: Tree, path: string)
    requires Within(t, u) && Resolved(t, path).Some?
    ensures Resolved(u, path) == Resolved(t, path)
  {
    WalkInLarger(t, u, Root, Components(Walked(path)));
  }

  lemma LinkIsLarger(t: Tree, p: Path, x: string, content: Content)
    requires IsDir(t, p) && In(p, x) !in t
    ensures Within(t, Link(t, p, x, content))
  {
  }

  lemma PruneIsSmaller(t: Tree, p: Path, x: string)
    requires IsDir(t, p) && x in t[p].names
    ensures Within(Prune(t, p, x), t)
  {
  }

  // ---- Making -----------------------------------------------------------------------

  /** The path's directory is there, and nothing is at the path. */
  predicate CanMake(t: Tree, path: string, dir: string) {
    Resolved(t, dir).Some? && IsDir(t, Resolved(t, dir).value) && Resolved(t, path) == None
  }

  /** Only `content` is new, under the path, where nothing was before. */
  ghost predicate MadeAt(t: Tree, path: string, content: Content, after: Tree) {
    Resolved(t, path) == None && Resolved(after, path).Some? &&
    var q := Resolved(after, path).value;
    && q.In? && q !in t && after.Keys == t.Keys + {q} && after[q] == content
    && forall p :: p in t ==> after[p] == if p == q.dir && t[p].Dir? then Dir([q.name] + t[p].names) else t[p]
  }

  lemma CreatableIff(t: Tree, path: string, dir: string, x: string)
    requires TreeOk(t) && IsPath(path, dir, x)
    ensures Creatable(t, path) <==> CanMake(t, path, dir)
    ensures Creatable(t, path) ==> FileName(path) == x && In(Target(t, path).value, x) !in t
                                   && Target(t, path) == Resolved(t, dir)
  {
    hide Resolved, FileName;
    PathStep(t, path, dir, x);
    PathParts(path, dir, x);
  }

  lemma LinkMakes(t: Tree, path: string, dir: string, x: string, content: Content)
    requires TreeOk(t) && IsPath(path, dir, x) && CanMake(t, path, dir)
    ensures Resolved(t, dir).Some? && IsDir(t, Resolved(t, dir).value)
    ensures var after := Link(t, Resolved(t, dir).value, x, content);
            MadeAt(t, path, content, after) && Resolved(after, path) == Some(In(Resolved(t, dir).value, x))
  {
    hide Resolved, TreeOk;
    var p := Resolved(t, dir).value;
    var after := Link(t, p, x, content);
    PathStep(t, path, dir, x);
    LinkIsLarger(t, p, x, content);
    ResolvedInLarger(t, after, dir);
    PathStep(after, path, dir, x);
    LinkNodes(t, p, x, content);
  }

  lemma LinkNodes(t: Tree, p: Path, x: string, content: Content)
    requires IsDir(t, p) && In(p, x) !in t
    ensures var (q, after) := (In(p, x), Link(t, p, x, content));
            && after.Keys == t.Keys + {q} && after[q] == content
            && forall n :: n in t ==> after[n] == if n == p then Dir([x] + t[p].names) else t[n]
  {
  }

  /** `mkdir` of a path: exactly if its directory is there, nothing is at the path, and there are three blocks; then an
      empty directory is there. */
  lemma MkdirMakes(s: Snapshot, root: nat, path: string, dir: string, x: string, ok: bool, after: Snapshot)
    requires Sound(s, root) && IsPath(path, dir, x) && MakesDir(s, path, ok, after)
    ensures ok <==> CanMake(s.v.tree, path, dir) && DirGrants(s.blocks).Some?
    ensures if ok then MadeAt(s.v.tree, path, Dir([]), after.v.tree) else after.v.tree == s.v.tree
    ensures ok ==> Resolved(s.v.tree, dir).Some?
                   && Resolved(after.v.tree, path) == Some(In(Resolved(s.v.tree, dir).value, x))
  {
    hide Resolved, FileName, CanMake, MadeAt, Target, Creatable, DirGrants;
    TreeOfSound(s, root);
    CreatableIff(s.v.tree, path, dir, x);
    if ok {
      LinkMakes(s.v.tree, path, dir, x, Dir([]));
    }
  }

  /** `touch` of a path: the same for an empty file and two blocks. */
  lemma TouchMakes(s: Snapshot, root: nat, path: string, dir: string, x: string, ok: bool, after: Snapshot)
    requires Sound(s, root) && IsPath(path, dir, x) && MakesFile(s, path, ok, after)
    ensures ok <==> CanMake(s.v.tree, path, dir) && FileGrants(s.blocks).Some?
    ensures if ok then MadeAt(s.v.tree, path, File([]), after.v.tree) else after.v.tree == s.v.tree
    ensures ok ==> Resolved(s.v.tree, dir).Some?
                   && Resolved(after.v.tree, path) == Some(In(Resolved(s.v.tree, dir).value, x))
  {
    hide Resolved, FileName, CanMake, MadeAt, Target, Creatable, FileGrants;
    TreeOfSound(s, root);
    CreatableIff(s.v.tree, path, dir, x);
    if ok {
      LinkMakes(s.v.tree, path, dir, x, File([]));
    }
  }

  // ---- Writing ----------------------------------------------------------------------

  /** In the tree `after` there is a file at `q` that was not there before, or has changed from what it was. */
  lemma MadeThenWritten(t: Tree, path: string, mid: Tree, q: Path, data: seq<byte>, after: Tree)
    requires MadeAt(t, path, File([]), mid) && Resolved(mid, path) == Some(q) && WroteTo(mid, q, 0, data, after)
    ensures MadeAt(t, path, File(data), after)
  {
    hide Resolved;
    assert after[q].bytes[..0 + |data|] == after[q].bytes[0..0 + |data|];
    assert Within(mid, after);
    ResolvedInLarger(mid, after, path);
  }

  /** `write` to a path where nothing is: a file is there afterwards exactly if its directory is there and two blocks
      are,
      and it holds the text exactly if memory for that was found. */
  lemma WriteMakes(s: Snapshot, root: nat, path: string, dir: string, x: string, data: seq<byte>, ok: bool,
                   after: Snapshot)
    requires Sound(s, root) && IsPath(path, dir, x) && Resolved(s.v.tree, path) == None
    requires Writes(s, path, data, ok, after)
    ensures if CanMake(s.v.tree, path, dir) && FileGrants(s.blocks).Some?
            then MadeAt(s.v.tree, path, File(if ok then data else []), after.v.tree)
            else !ok && after.v.tree == s.v.tree
  {
    hide Resolved, FileName, CanMake, MadeAt, Target, Creatable, MakesFile, FileGrants, CanWrite, WroteTo;
    TreeOfSound(s, root);
    CreatableIff(s.v.tree, path, dir, x);
    if OpenFits(s, path) {
      var q := Opened(s.v.tree, path).value.1;
      var mid :| Opens(s, path, true, mid) && WritesTo(mid, q, 0, data, ok, after);
      TouchMakes(s, root, path, dir, x, true, mid);
      PathIsThere(s.v.tree, path, dir, x, File([]), mid.v.tree);
      if ok {
        WroteOnly(mid, q, data, after);
        MadeThenWritten(s.v.tree, path, mid.v.tree, q, data, after.v.tree);
      }
    } else {
      TouchMakes(s, root, path, dir, x, false, after);
    }
  }

  lemma WroteOnly(s: Snapshot, q: Path, data: seq<byte>, after: Snapshot)
    requires WritesTo(s, q, 0, data, true, after)
    ensures WroteTo(s.v.tree, q, 0, data, after.v.tree)
  {
  }

  lemma PathIsThere(t: Tree, path: string, dir: string, x: string, content: Content, after: Tree)
    requires TreeOk(t) && IsPath(path, dir, x) && CanMake(t, path, dir) && MadeAt(t, path, content, after)
    ensures Opened(t, path).Some? && Resolved(after, path) == Some(Opened(t, path).value.1)
  {
    CreatableIff(t, path, dir, x);
    PathStep(t, path, dir, x);
    LinkIsLarger(t, Target(t, path).value, x, content);
    assert Within(t, after);
    ResolvedInLarger(t, after, dir);
    PathStep(after, path, dir, x);
    hide Resolved;
  }

  /** `write` to a path that leads somewhere: with success only the file there has changed, from its start on, and
      without
      nothing has. */
  lemma WriteChanges(s: Snapshot, path: string, data: seq<byte>, ok: bool, after: Snapshot)
    requires Writes(s, path, data, ok, after) && Resolved(s.v.tree, path).Some?
    ensures if ok then WroteTo(s.v.tree, Resolved(s.v.tree, path).value, 0, data, after.v.tree)
            else after.v.tree == s.v.tree
  {
    hide Resolved, CanWrite, WroteTo;
    WritesMean(s, path, data, ok, after);
  }

  // ---- Removing ---------------------------------------------------------------------

  /** What is at the path can go: a file, or a directory with at most two entries. */
  predicate MayGo(t: Tree, path: string) {
    Resolved(t, path).Some? && Resolved(t, path).value in t &&
    match t[Resolved(t, path).value]
    case File(_) => true
    case Dir(names) => |names| <= 2
  }

  /** The node at the path is gone, with all below it, and its name from its directory; nothing else is. */
  ghost predicate GoneFrom(t: Tree, path: string, after: Tree) {
    Resolved(t, path).Some? && Resolved(after, path) == None &&
    var q := Resolved(t, path).value;
    && q.In? && (forall p :: p in after <==> p in t && !Under(q, p))
    && forall p :: p in after ==>
         if p == q.dir && t[p].Dir? then after[p].Dir?
             && IsWithout(t[p].names, q.name, after[p].names) else after[p] == t[p]
  }

  /** `rest` is `names` without the one place where `x` was. */
  predicate IsWithout(names: seq<string>, x: string, rest: seq<string>) {
    exists i :: 0 <= i < |names| && names[i] == x && rest == names[..i] + names[i + 1..]
  }

  lemma PruneRemoves(t: Tree, path: string, dir: string, x: string)
    requires TreeOk(t) && IsPath(path, dir, x) && Resolved(t, dir).Some?
    requires var p := Resolved(t, dir).value; IsDir(t, p) && x in t[p].names && Resolved(t, path) == Some(In(p, x))
    ensures GoneFrom(t, path, Prune(t, Resolved(t, dir).value, x))
  {
    hide Resolved, TreeOk;
    var p := Resolved(t, dir).value;
    UnderItself(In(p, x));
    PruneIsSmaller(t, p, x);
    PruneKeepsTree(t, p, x);
    NothingThere(t, Prune(t, p, x), path);
    var i := IndexOf(t[p].names, x);
    assert t[p].names[i] == x && RemoveAt(t[p].names, i) == t[p].names[..i] + t[p].names[i + 1..];
  }

  lemma NothingThere(t: Tree, after: Tree, path: string)
    requires TreeOk(after) && Within(after, t) && Resolved(t, path).Some? && Resolved(t, path).value !in after
    ensures Resolved(after, path) == None
  {
    if Resolved(after, path).Some? {
      ResolvedInLarger(after, t, path);
      WalkStays(after, Root, Components(Walked(path)));
    }
  }

  lemma UnderItself(q: Path)
    ensures Under(q, q)
  {
  }

  /** `rm` of a path, but for `.` and `..`: exactly what can go is gone. */
  lemma RmRemoves(s: Snapshot, root: nat, path: string, dir: string, x: string, ok: bool, after: Snapshot)
    requires Sound(s, root) && IsPath(path, dir, x) && Removes(s, path, ok, after)
    ensures ok <==> x != "." && x != ".." && MayGo(s.v.tree, path)
    ensures if ok then GoneFrom(s.v.tree, path, after.v.tree) else after.v.tree == s.v.tree
  {
    hide Resolved, FileName, GoneFrom, Target, Sound;
    TreeOfSound(s, root);
    var t := s.v.tree;
    PathStep(t, path, dir, x);
    PathParts(path, dir, x);
    if Target(t, path).Some? {
      SelfIsNoEntry(t, Target(t, path).value, x);
      if ok {
        PruneRemoves(t, path, dir, x);
      }
    }
  }

  // ---- A path that ends in a slash ----------------------------------------------------

  /** No name on the way is empty. */
  predicate AllNamed(p: Path) {
    p.Root? || (p.name != "" && AllNamed(p.dir))
  }

  lemma {:induction false} ScanIsNamed(s: string, acc: string)
    ensures forall x :: x in Scan(s, acc) ==> x != ""
    decreases |s|
  {
    if s != "" {
      if s[0] == SLASH {
        ScanIsNamed(s[1..], "");
      } else {
        ScanIsNamed(s[1..], acc + [s[0]]);
      }
    }
  }

  lemma {:induction false} WalkIsNamed(t: Tree, cur: Path, comps: seq<string>)
    requires AllNamed(cur) && Walk(t, Some(cur), comps).Some? && forall x :: x in comps ==> x != ""
    ensures AllNamed(Walk(t, Some(cur), comps).value)
    decreases |comps|
  {
    if comps != [] {
      var next := PathModel.Step(t, Some(cur), comps[0]);
      if next.None? {
        WalkOfNone(t, comps[1..]);
      } else {
        assert comps[0] in comps;
        assert forall x :: x in comps[1..] ==> x in comps;
        WalkIsNamed(t, next.value, comps[1..]);
      }
    }
  }

  /** A command that makes something at a path that is empty or ends in a slash makes an entry with an empty name,
      which no
      path leads to, then or ever. */
  lemma NamelessIsLost(t: Tree, path: string, any: Tree, p: Path, other: string)
    requires path == "" || path[|path| - 1] == '/'
    ensures FileName(path) == "" && Resolved(any, other) != Some(In(p, ""))
  {
    var comps := Components(Walked(other));
    ScanIsNamed(Walked(other), "");
    if Resolved(any, other).Some? {
      WalkIsNamed(any, Root, comps);
    }
  }

  // ---- Listing ------------------------------------------------------------------------

  /** No name holds a slash. */
  ghost predicate SlashFree(t: Tree) {
    forall p, x :: In(p, x) in t ==> '/' !in x
  }

  lemma {:induction false} LineOfName(t: Tree, p: Path, names: seq<string>, i: nat)
    requires i < |names|
    ensures |Lines(t, p, names)| == |names|
    ensures Lines(t, p, names)[i] ==
            names[i] + if Find(t, p, names[i]).Some? && IsDir(t, Find(t, p, names[i]).value) then "/" else ""
  {
    if i > 0 {
      LineOfName(t, p, names[1..], i - 1);
    } else if |names| > 1 {
      LineOfName(t, p, names[1..], 0);
    }
  }

  lemma LineIsName(x: string, n: string, mark: string)
    requires '/' !in x && '/' !in n && (mark == "" || mark == "/")
    ensures n + mark == x <==> n == x && mark == ""
    ensures n + mark == x + "/" <==> n == x && mark == "/"
  {
    assert (n + "/")[|n|] == '/' && (x + "/")[|x|] == '/';
    assert (n + "/")[..|n|] == n && (x + "/")[..|x|] == x;
  }

  /** The mark behind a listed name. */
  function Mark(t: Tree, p: Path, x: string): string {
    if Find(t, p, x).Some? && IsDir(t, Find(t, p, x).value) then "/" else ""
  }

  lemma LineIsOf(t: Tree, p: Path, x: string, i: nat)
    requires TreeOk(t) && SlashFree(t) && IsDir(t, p) && '/' !in x && i < |Listing(t, p)|
    ensures |Lines(t, p, Listing(t, p))| == |Listing(t, p)|
    ensures var (names, line) := (Listing(t, p), Lines(t, p, Listing(t, p))[i]);
            && (line == x <==> names[i] == x && Mark(t, p, x) == "")
            && (line == x + "/" <==> names[i] == x && Mark(t, p, x) == "/")
  {
    hide Lines, TreeOk, SlashFree;
    var names := Listing(t, p);
    assert names[i] in names;
    ListingIsWhatIsFound(t, p, names[i]);
    LineOfName(t, p, names, i);
    LineIsName(x, names[i], Mark(t, p, names[i]));
  }

  lemma ListedName(t: Tree, p: Path, x: string)
    requires TreeOk(t) && SlashFree(t) && IsDir(t, p) && '/' !in x
    ensures var lines := Lines(t, p, Listing(t, p));
            && (x in lines <==> Find(t, p, x).Some? && Mark(t, p, x) == "")
            && (x + "/" in lines <==> Find(t, p, x).Some? && Mark(t, p, x) == "/")
  {
    hide Lines, Listing, Mark, Find, TreeOk, SlashFree;
    var (names, lines) := (Listing(t, p), Lines(t, p, Listing(t, p)));
    ListingIsWhatIsFound(t, p, x);
    NoMoreLines(t, p, names);
    forall i | 0 <= i < |names|
      ensures lines[i] == x <==> names[i] == x && Mark(t, p, x) == ""
      ensures lines[i] == x + "/" <==> names[i] == x && Mark(t, p, x) == "/"
    {
      LineIsOf(t, p, x, i);
    }
  }

  lemma {:induction false} NoMoreLines(t: Tree, p: Path, names: seq<string>)
    ensures |Lines(t, p, names)| == |names|
  {
    if names != [] {
      NoMoreLines(t, p, names[1..]);
    }
  }

  /** A directory lists exactly the names that mean something in it. */
  lemma ListingIsWhatIsFound(t: Tree, p: Path, x: string)
    requires TreeOk(t) && SlashFree(t) && IsDir(t, p)
    ensures x in Listing(t, p) <==> Find(t, p, x).Some?
    ensures x in Listing(t, p) ==> '/' !in x
  {
    assert In(p, x) in t ==> x in t[p].names;
  }

  /** `ls` of a path shows something exactly if that is a directory, and then a name exactly if the path with that name
      behind it leads to something: with a slash if that is a directory, and without one if it is a file. */
  lemma LsShows(t: Tree, path: string, x: string)
    requires TreeOk(t) && SlashFree(t) && x != "" && '/' !in x && |path| + 1 + |x| <= 255
    ensures Listed(t, Some(path)).Some? <==> Resolved(t, path).Some? && IsDir(t, Resolved(t, path).value)
    ensures Listed(t, Some(path)).Some? ==>
              var (lines, there) := (Listed(t, Some(path)).value, Resolved(t, path + "/" + x));
              && (x + "/" in lines <==> there.Some? && IsDir(t, there.value))
              && (x in lines <==> there.Some? && !IsDir(t, there.value))
    ensures Listed(t, None) == Listed(t, Some(""))
  {
    hide Resolved, Lines, Listing, TreeOk, SlashFree;
    NoPathIsRoot(t);
    PathStep(t, path + "/" + x, path, x);
    if Resolved(t, path).Some? && IsDir(t, Resolved(t, path).value) {
      ListedName(t, Resolved(t, path).value, x);
    }
  }

  lemma NoPathIsRoot(t: Tree)
    ensures Resolved(t, "") == Some(Root)
  {
  }

  // ---- Slashes in names -----------------------------------------------------------------

  lemma LinkSlashFree(t: Tree, path: string, p: Path, content: Content)
    requires SlashFree(t) && IsDir(t, p)
    ensures SlashFree(Link(t, p, FileName(path), content))
  {
    hide FileName;
    NoSlashInName(path);
  }

  lemma NoSlashInName(path: string)
    ensures '/' !in FileName(path)
  {
    NoSlashBehind(path);
  }

  lemma FewerSlashFree(t: Tree, after: Tree)
    requires SlashFree(t) && forall p :: p in after ==> p in t
    ensures SlashFree(after)
  {
  }

  /** No command makes a name with a slash. */
  lemma EffectKeepsSlashFree(s: Snapshot, c: Command, o: Outcome, after: Snapshot)
    requires SlashFree(s.v.tree) && Effect(s, c, o, after)
    ensures SlashFree(after.v.tree)
  {
    hide SlashFree, FileName, Target, Deletable, Resolved, Writes, CanWrite;
    var t := s.v.tree;
    match c {
      case MakeDir(path) =>
        if o.ok {
          LinkSlashFree(t, path, Target(t, path).value, Dir([]));
        }
      case MakeFile(path) =>
        if o.ok {
          LinkSlashFree(t, path, Target(t, path).value, File([]));
        }
      case Remove(path) => FewerSlashFree(t, after.v.tree);
      case WriteFile(path, words) => WritesKeepSlashFree(s, path, ToBytes(Joined(words)), o.ok, after);
      case WriteBytes(path, offset, data) => FewerSlashFree(t, after.v.tree);
      case _ =>
    }
  }

  lemma WritesKeepSlashFree(s: Snapshot, path: string, data: seq<byte>, ok: bool, after: Snapshot)
    requires SlashFree(s.v.tree) && Writes(s, path, data, ok, after)
    ensures SlashFree(after.v.tree)
  {
    hide SlashFree, FileName, Target, Resolved, Writes;
    WritesMean(s, path, data, ok, after);
    if Opened(s.v.tree, path).Some? {
      var start := Opened(s.v.tree, path).value.0;
      if Resolved(s.v.tree, path).None? {
        OpensInDir(s.v.tree, path);
        LinkSlashFree(s.v.tree, path, Target(s.v.tree, path).value, File([]));
      }
      FewerSlashFree(start, after.v.tree);
    } else {
      FewerSlashFree(s.v.tree, after.v.tree);
    }
  }

  lemma OpensInDir(t: Tree, path: string)
    ensures Target(t, path).Some? ==> IsDir(t, Target(t, path).value)
  {
  }

  /** So none has one in any session, if none had one at its start. */
  lemma {:induction false} TraceKeepsSlashFree(states: seq<Snapshot>, commands: seq<Command>, outcomes: seq<Outcome>,
                                               n: nat)
    requires Trace(states, commands, outcomes) && SlashFree(states[0].v.tree) && n <= |commands|
    ensures SlashFree(states[n].v.tree)
  {
    hide SlashFree, Effect;
    if n > 0 {
      TraceKeepsSlashFree(states, commands, outcomes, n - 1);
      EffectKeepsSlashFree(states[n - 1], commands[n - 1], outcomes[n - 1], states[n]);
    }
  }

  lemma DirectoriesSlashFree(names: seq<string>)
    requires forall x :: x in names ==> '/' !in x
    ensures SlashFree(Directories(names))
  {
  }

  /** From the mount on none ever has. */
  lemma SlashFreeFromBoot(states: seq<Snapshot>, commands: seq<Command>, outcomes: seq<Outcome>, n: nat)
    requires Trace(states, commands, outcomes) && n <= |commands|
    requires states[0].v.tree == Directories(["tmp", "proc", "dev"])
    ensures SlashFree(states[n].v.tree)
  {
    hide Directories, SlashFree, Effect;
    assert forall x :: x in ["tmp", "proc", "dev"] ==> '/' !in x;
    DirectoriesSlashFree(["tmp", "proc", "dev"]);
    assert SlashFree(states[0].v.tree);
    TraceKeepsSlashFree(states, commands, outcomes, n);
  }

  // ---- Showing ------------------------------------------------------------------------

  /** `cat` looks its argument up as a name in the root: of the paths that lead to a file other than by `.` or `..`, it
      shows the file's bytes exactly for those without a slash. */
  lemma CatShowsIff(t: Tree, path: string)
    requires TreeOk(t) && SlashFree(t) && |path| <= 255 && Resolved(t, path).Some? && !IsDir(t, Resolved(t, path).value)
    ensures Resolved(t, path).value in t
    ensures Shown(t, path) == if '/' in path then None else Some(t[Resolved(t, path).value].bytes)
  {
    WalkStays(t, Root, Components(Walked(path)));
    NoPathIsRoot(t);
    if '/' !in path {
      if path != "" {
        PathStep(t, path, "", path);
      }
    }
    hide Resolved;
  }

  /** And a plain name shows something exactly if it leads to a file. */
  lemma CatShowsFiles(t: Tree, x: string)
    requires TreeOk(t) && x != "" && '/' !in x && |x| <= 255
    ensures Shown(t, x).Some? <==> Resolved(t, x).Some? && !IsDir(t, Resolved(t, x).value)
  {
    NoPathIsRoot(t);
    PathStep(t, x, "", x);
    hide Resolved;
  }

  // ---- Long paths -----------------------------------------------------------------------

  /** A leading slash makes no difference, and behind it only the first 255 characters count. */
  lemma LongPathIsCut(t: Tree, path: string)
    requires path != "" && path[0] != '/'
    ensures Resolved(t, "/" + path) == Resolved(t, path)
    ensures |path| > 255 ==> Resolved(t, path) == Resolved(t, path[..255])
  {
    assert ("/" + path)[1..] == path;
  }

  // ---- Dots -----------------------------------------------------------------------------

  /** Behind the path of a directory, `.` leads to itself, and `..` to the directory it is in, which for the root is the
      root. */
  lemma DotsLead(t: Tree, path: string)
    requires TreeOk(t) && |path| <= 252 && Resolved(t, path).Some? && IsDir(t, Resolved(t, path).value)
    ensures Resolved(t, path + "/.") == Resolved(t, path)
    ensures Resolved(t, path + "/..")
            == match Resolved(t, path).value { case Root => Some(Root) case In(dir, _) => Some(dir) }
  {
    hide Resolved;
    PathStep(t, path + "/" + ".", path, ".");
    PathStep(t, path + "/" + "..", path, "..");
    assert path + "/." == path + "/" + "." && path + "/.." == path + "/" + "..";
  }
}
