/**
 The file system as a mathematical tree: a prefix-closed map from paths to
 files (byte sequences) and directories (the names they list, newest first).
 */
module FsTree {
  import opened Machine

  datatype Path = Root | In(dir: Path, name: string)

  datatype Content = File(bytes: seq<byte>) | Dir(names: seq<string>)

  type Tree = map<Path, Content>

  const DOT: string := "."
  const DOTDOT: string := ".."

  /** Names kept in an entry: at most 127 bytes of the 128-byte field. */
  const NAME_MAX: nat := 127

  ghost predicate Distinct<T>(s: seq<T>) {
    forall i, j :: 0 <= i < j < |s| ==> s[i] != s[j]
  }

  ghost predicate NamesOk(names: seq<string>) {
    && Distinct(names)
    && forall x :: x in names ==> |x| <= NAME_MAX && x != DOT && x != DOTDOT
  }

  /** `q` is `p` or lies below it. */
  predicate Under(p: Path, q: Path) {
    q == p || (q.In? && Under(p, q.dir))
  }

  predicate IsDir(t: Tree, p: Path) {
    p in t && t[p].Dir?
  }

  /** Every node is listed by the directory above it, and every listed name is a node. */
  ghost predicate TreeOk(t: Tree) {
    && IsDir(t, Root)
    && (forall p, x :: In(p, x) in t ==> IsDir(t, p) && x in t[p].names)
    && (forall p, x :: IsDir(t, p) && x in t[p].names ==> In(p, x) in t)
    && (forall p :: IsDir(t, p) ==> NamesOk(t[p].names))
  }

  // ---- Looking up ---------------------------------------------------------

  function Up(p: Path): Path {
    if p.Root? then Root else p.dir
  }

  /** What a name means in the directory `p`. */
  function Find(t: Tree, p: Path, name: string): Option<Path> {
    if name == DOT then Some(p)
    else if name == DOTDOT then Some(Up(p))
    else if In(p, name) in t then Some(In(p, name))
    else None
  }

  // ---- Changing the tree --------------------------------------------------

  /** `content` becomes the newest entry `x` of the directory `p`. */
  function Link(t: Tree, p: Path, x: string, content: Content): Tree
    requires IsDir(t, p)
  {
    t[p := Dir([x] + t[p].names)][In(p, x) := content]
  }

  function IndexOf<T(==)>(s: seq<T>, x: T): (i: nat)
    requires x in s
    ensures i < |s| && s[i] == x && x !in s[..i]
  {
    if s[0] == x then 0 else 1 + IndexOf(s[1..], x)
  }

  function RemoveAt<T>(s: seq<T>, i: nat): seq<T>
    requires i < |s|
  {
    s[..i] + s[i + 1..]
  }

  /** The entry `x` of `p` goes, with all that lies below it. */
  function Prune(t: Tree, p: Path, x: string): Tree
    requires IsDir(t, p) && x in t[p].names
  {
    map q | q in t && !Under(In(p, x), q) ::
      if q == p then Dir(RemoveAt(t[p].names, IndexOf(t[p].names, x))) else t[q]
  }

  /** A delete of `.` or `..` is refused: the directory it means has more than two entries. */
  predicate KeepsItself(t: Tree, p: Path, x: string) {
    x == DOT || x == DOTDOT ==>
      var q := Find(t, p, x).value;
      IsDir(t, q) && |t[q].names| > 2
  }

  /** What the delete operation accepts: a file, or a directory with at most two entries. */
  predicate Deletable(t: Tree, p: Path, x: string) {
    In(p, x) in t && (t[In(p, x)].File? || |t[In(p, x)].names| <= 2)
  }

  lemma SelfIsNoEntry(t: Tree, p: Path, x: string)
    requires TreeOk(t) && IsDir(t, p)
    ensures x == DOT || x == DOTDOT ==> In(p, x) !in t && !Deletable(t, p, x)
    ensures In(p, x) in t ==> x in t[p].names && Find(t, p, x) == Some(In(p, x))
  {
    assert NamesOk(t[p].names);
  }

  // ---- The operations keep the tree a tree --------------------------------

  lemma {:induction false} UnderIsNotUp(p: Path, x: string, q: Path)
    requires Under(In(p, x), q)
    ensures q != p && Under(p, q)
  {
    if q != In(p, x) {
      UnderIsNotUp(p, x, q.dir);
      UnderShorter(p, q.dir);
    }
  }

  function Depth(p: Path): nat {
    if p.Root? then 0 else 1 + Depth(p.dir)
  }

  lemma {:induction false} UnderShorter(p: Path, q: Path)
    requires Under(p, q)
    ensures Depth(p) <= Depth(q)
  {
    if q != p {
      UnderShorter(p, q.dir);
    }
  }

  lemma LinkKeepsTree(t: Tree, p: Path, x: string, content: Content)
    requires TreeOk(t) && IsDir(t, p) && Find(t, p, x) == None && |x| <= NAME_MAX
    requires content == File([]) || content == Dir([])
    ensures TreeOk(Link(t, p, x, content))
  {
    var after := Link(t, p, x, content);
    var c := In(p, x);
    assert x !in t[p].names;
    forall q | q in after && q.In? ensures IsDir(after, q.dir) && q.name in after[q.dir].names {
    }
    forall q, y | IsDir(after, q) && y in after[q].names ensures In(q, y) in after {
      if q == c {
      } else if q == p {
        assert y == x || y in t[p].names;
      } else {
        assert IsDir(t, q);
      }
    }
    forall q | IsDir(after, q) ensures NamesOk(after[q].names) {
      if q == p {
        assert NamesOk(t[p].names);
      } else if q != c {
        assert IsDir(t, q);
      }
    }
  }

  lemma RemoveAtDropsOne(names: seq<string>, x: string)
    requires Distinct(names) && x in names
    ensures var left := RemoveAt(names, IndexOf(names, x));
            Distinct(left) && forall y :: y in left <==> y in names && y != x
  {
    var i := IndexOf(names, x);
    var left := RemoveAt(names, i);
    forall y | y in names && y != x ensures y in left {
      var j :| 0 <= j < |names| && names[j] == y;
      assert if j < i then left[j] == y else left[j - 1] == y;
    }
  }

  lemma PruneKeepsTree(t: Tree, p: Path, x: string)
    requires TreeOk(t) && IsDir(t, p) && x in t[p].names
    ensures TreeOk(Prune(t, p, x))
  {
    var after := Prune(t, p, x);
    var c := In(p, x);
    RemoveAtDropsOne(t[p].names, x);
    forall q | q in t && Under(c, q) ensures q != p && q != Root {
      UnderIsNotUp(p, x, q);
    }
    forall q | q in after && q.In? ensures IsDir(after, q.dir) && q.name in after[q.dir].names {
      assert !Under(c, q.dir);
    }
    forall q, y | IsDir(after, q) && y in after[q].names ensures In(q, y) in after {
      assert IsDir(t, q) && y in t[q].names;
      assert In(q, y) != c;
    }
    forall q | IsDir(after, q) ensures NamesOk(after[q].names) {
      assert NamesOk(t[q].names);
    }
  }
}
