/**
 Paths as text: their components, the walk they describe in a tree, and their
 normal form.
 */
module PathModel {
  import opened Machine
  import opened FsTree

  const SLASH: char := '/'

  /** The non-empty components of `s`, when `acc` is the component read so far. */
  function Scan(s: string, acc: string): seq<string>
    decreases |s|
  {
    if s == "" then Flush(acc)
    else if s[0] == SLASH then Flush(acc) + Scan(s[1..], "")
    else Scan(s[1..], acc + [s[0]])
  }

  function Flush(acc: string): seq<string> {
    if acc == "" then [] else [acc]
  }

  function Components(s: string): seq<string> {
    Scan(s, "")
  }

  // ---- Walking ------------------------------------------------------------

  /** One component: only a directory can be searched. */
  function Step(t: Tree, cur: Option<Path>, x: string): Option<Path> {
    if cur.Some? && IsDir(t, cur.value) then Find(t, cur.value, x) else None
  }

  /** The left fold of `Step`. */
  function Walk(t: Tree, cur: Option<Path>, comps: seq<string>): Option<Path>
    decreases |comps|
  {
    if comps == [] then cur else Walk(t, Step(t, cur, comps[0]), comps[1..])
  }

  lemma {:induction false} WalkConcat(t: Tree, cur: Option<Path>, a: seq<string>, b: seq<string>)
    ensures Walk(t, cur, a + b) == Walk(t, Walk(t, cur, a), b)
    decreases |a|
  {
    if a == [] {
      assert a + b == b;
    } else {
      assert (a + b)[1..] == a[1..] + b;
      WalkConcat(t, Step(t, cur, a[0]), a[1..], b);
    }
  }

  lemma {:induction false} WalkOfNone(t: Tree, comps: seq<string>)
    ensures Walk(t, None, comps) == None
  {
    if comps != [] {
      WalkOfNone(t, comps[1..]);
    }
  }

  lemma {:induction false} WalkStays(t: Tree, cur: Path, comps: seq<string>)
    requires TreeOk(t) && cur in t
    ensures Walk(t, Some(cur), comps).Some? ==> Walk(t, Some(cur), comps).value in t
    decreases |comps|
  {
    if comps != [] {
      var next := Step(t, Some(cur), comps[0]);
      if next.Some? {
        WalkStays(t, next.value, comps[1..]);
      } else {
        WalkOfNone(t, comps[1..]);
      }
    }
  }

  // ---- Normal form --------------------------------------------------------

  function NormalStep(p: Path, x: string): Path {
    if x == DOT then p else if x == DOTDOT then Up(p) else In(p, x)
  }

  /** Drops `.`, cancels `x/..`, and stays at the root on `..` there; looks at no tree. */
  function Normal(p: Path, comps: seq<string>): Path
    decreases |comps|
  {
    if comps == [] then p else Normal(NormalStep(p, comps[0]), comps[1..])
  }

  /** The names that lead from the root to `p`. */
  function Names(p: Path): seq<string> {
    match p
    case Root => []
    case In(dir, name) => Names(dir) + [name]
  }

  /** A walk that arrives, arrives at the normal form of its path. */
  lemma {:induction false} WalkIsNormal(t: Tree, p: Path, comps: seq<string>)
    requires Walk(t, Some(p), comps).Some?
    ensures Walk(t, Some(p), comps).value == Normal(p, comps)
    decreases |comps|
  {
    if comps != [] {
      var next := Step(t, Some(p), comps[0]);
      if next.None? {
        WalkOfNone(t, comps[1..]);
      } else {
        WalkIsNormal(t, next.value, comps[1..]);
      }
    }
  }

  lemma {:induction false} NamesLeadThere(t: Tree, p: Path)
    requires TreeOk(t) && p in t
    ensures Walk(t, Some(Root), Names(p)) == Some(p)
  {
    if p.In? {
      NamesLeadThere(t, p.dir);
      WalkConcat(t, Some(Root), Names(p.dir), [p.name]);
      assert [p.name][1..] == [];
      assert NamesOk(t[p.dir].names);
    }
  }

  /** Walking the normal form of a path that leads somewhere leads to the same node. */
  lemma NormalisationIsSound(t: Tree, comps: seq<string>)
    requires TreeOk(t) && Walk(t, Some(Root), comps).Some?
    ensures Walk(t, Some(Root), Names(Normal(Root, comps))) == Walk(t, Some(Root), comps)
  {
    WalkStays(t, Root, comps);
    WalkIsNormal(t, Root, comps);
    NamesLeadThere(t, Normal(Root, comps));
  }

  /** The first `i` components, normalised, lead to a directory, and one more leads to a node. */
  predicate Passable(t: Tree, p: Path, comps: seq<string>, i: nat)
    requires i < |comps|
  {
    IsDir(t, Normal(p, comps[..i])) && Normal(p, comps[..i + 1]) in t
  }

  lemma PassableShift(t: Tree, p: Path, comps: seq<string>, i: nat)
    requires i + 1 < |comps|
    ensures Passable(t, p, comps, i + 1) == Passable(t, NormalStep(p, comps[0]), comps[1..], i)
  {
    assert comps[..i + 1][1..] == comps[1..][..i];
    assert comps[..i + 2][1..] == comps[1..][..i + 1];
  }

  lemma PassableFirst(t: Tree, p: Path, comps: seq<string>)
    requires TreeOk(t) && p in t && comps != []
    ensures Passable(t, p, comps, 0) <==> Step(t, Some(p), comps[0]).Some?
    ensures Step(t, Some(p), comps[0]).Some? ==>
              Step(t, Some(p), comps[0]).value == NormalStep(p, comps[0]) && NormalStep(p, comps[0]) in t
  {
    var x := comps[0];
    assert comps[..0] == [] && comps[..0 + 1] == [x] && [x][1..] == [];
    assert Normal(p, [x]) == NormalStep(p, x);
    assert x == DOTDOT ==> Up(p) in t;
  }

  /** A walk arrives exactly when every normalised prefix is a node and every proper one a directory. */
  lemma {:induction false} WalkArrivesIff(t: Tree, p: Path, comps: seq<string>)
    requires TreeOk(t) && p in t
    ensures Walk(t, Some(p), comps).Some? <==> forall i :: 0 <= i < |comps| ==> Passable(t, p, comps, i)
    decreases |comps|
  {
    if comps != [] {
      var (rest, there) := (comps[1..], NormalStep(p, comps[0]));
      PassableFirst(t, p, comps);
      if Passable(t, p, comps, 0) {
        WalkArrivesIff(t, there, rest);
        forall i | 0 <= i < |rest| ensures Passable(t, p, comps, i + 1) == Passable(t, there, rest, i) {
          PassableShift(t, p, comps, i);
        }
        if forall i :: 0 <= i < |rest| ==> Passable(t, there, rest, i) {
          forall i | 0 <= i < |comps| ensures Passable(t, p, comps, i) {
            if i > 0 {
              assert Passable(t, there, rest, i - 1);
            }
          }
        }
      } else {
        WalkOfNone(t, rest);
      }
    }
  }

  // ---- Splitting at the last slash -----------------------------------------

  lemma {:induction false} ScanConcat(a: string, b: string, acc: string)
    ensures Scan(a + [SLASH] + b, acc) == Scan(a, acc) + Scan(b, "")
    decreases |a|
  {
    var s := a + [SLASH] + b;
    if a == "" {
      assert s[1..] == b;
    } else {
      assert s[0] == a[0] && s[1..] == a[1..] + [SLASH] + b;
      if a[0] == SLASH {
        ScanConcat(a[1..], b, "");
      } else {
        ScanConcat(a[1..], b, acc + [a[0]]);
      }
    }
  }

  lemma {:induction false} ScanPlain(s: string, acc: string)
    requires SLASH !in s
    ensures Scan(s, acc) == Flush(acc + s)
    decreases |s|
  {
    if s == "" {
      assert acc + s == acc;
    } else {
      ScanPlain(s[1..], acc + [s[0]]);
      assert acc + [s[0]] + s[1..] == acc + s;
    }
  }

  /** Where the last slash is, or -1. */
  function LastSlash(s: string): (k: int)
    ensures -1 <= k < |s|
  {
    if s == "" then -1
    else if s[|s| - 1] == SLASH then |s| - 1
    else LastSlash(s[..|s| - 1])
  }

  lemma {:induction false} NoSlashBehind(s: string)
    ensures var k := LastSlash(s);
            (k >= 0 ==> s[k] == SLASH) && forall i :: k < i < |s| ==> s[i] != SLASH
  {
    if s != "" && s[|s| - 1] != SLASH {
      var front := s[..|s| - 1];
      NoSlashBehind(front);
      assert forall i :: 0 <= i < |front| ==> s[i] == front[i];
    }
  }

  lemma LastSlashMore(s: string, c: char)
    ensures LastSlash(s + [c]) == if c == SLASH then |s| else LastSlash(s)
  {
    assert (s + [c])[..|s|] == s;
  }

  /** The text in front of the last slash, and behind it. */
  function ParentText(s: string): string {
    if LastSlash(s) < 0 then "" else s[..LastSlash(s)]
  }

  function FileName(s: string): string {
    s[LastSlash(s) + 1..]
  }

  lemma SlashedComponents(a: string, name: string)
    requires SLASH !in name
    ensures Components(a + [SLASH] + name) == Components(a) + Flush(name)
  {
    ScanConcat(a, name, "");
    ScanPlain(name, "");
    assert "" + name == name;
  }

  /** The components of a path are those of its parent text, then its file name unless that is empty. */
  lemma ComponentsSplit(s: string)
    ensures Components(s) == Components(ParentText(s)) + Flush(FileName(s))
  {
    var k := LastSlash(s);
    NoSlashBehind(s);
    if k < 0 {
      assert FileName(s) == s && "" + s == s;
      ScanPlain(s, "");
    } else {
      SlashedComponents(s[..k], s[k + 1..]);
      assert s == s[..k] + [SLASH] + s[k + 1..];
    }
  }

  /** A leading slash adds no component. */
  lemma LeadingSlash(s: string)
    requires s != "" && s[0] == SLASH
    ensures Components(s) == Components(s[1..])
  {
  }
}
