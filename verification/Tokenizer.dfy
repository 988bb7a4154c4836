/**
 The tokenizer of the shell: it cuts a command line up in place.
 */
module Tokenizer {
  import opened Libc
  import opened Words

  /** The characters of `w` stand at `at`, inside the line. */
  predicate Stands(line: seq<char>, at: int, w: string) {
    0 <= at && at + |w| < |line| && line[at..at + |w|] == w
  }

  /** And a NUL follows. */
  predicate Ended(line: seq<char>, at: int, w: string) {
    Stands(line, at, w) && line[at + |w|] == NUL
  }

  /** From place `p` on, the line is still what it was. */
  ghost predicate Untouched(line: seq<char>, s: string, p: nat) {
    p <= |s| < |line| && line[p..|s|] == s[p..] && line[|s|] == NUL
  }

  method SkipInPlace(line: array<char>, p: nat, ghost s: string) returns (q: nat)
    requires NUL !in s && Untouched(line[..], s, p)
    modifies line
    ensures p <= q && Untouched(line[..], s, q) && s[q..] == SkipBlanks(s[p..])
    ensures line[..p] == old(line[..p]) && (p < q ==> line[p] == NUL)
    ensures q == |s| <==> line[q] == NUL
    ensures p < |s| && IsBlank(s[p]) ==> p < q
  {
    q := p;
    while line[q] == ' ' || line[q] == '\t'
      invariant p <= q && Untouched(line[..], s, q) && SkipBlanks(s[q..]) == SkipBlanks(s[p..])
      invariant line[..p] == old(line[..p]) && (p < q ==> line[p] == NUL)
      decreases |s| - q
    {
      assert line[..][q..|s|][0] == s[q..][0];
      assert s[q..][1..] == s[q + 1..];
      line[q] := NUL;
      q := q + 1;
      assert line[q..|s|] == s[q..];
    }
    assert q < |s| ==> line[..][q..|s|][0] == s[q..][0] && s[q] in s;
  }

  method SkipWord(line: array<char>, p: nat, ghost s: string) returns (q: nat)
    requires NUL !in s && Untouched(line[..], s, p)
    ensures p <= q && Untouched(line[..], s, q)
    ensures FirstWord(s[p..]) == s[p..q] && AfterWord(s[p..]) == s[q..]
    ensures q < |s| ==> IsBlank(s[q])
  {
    hide AfterWord;
    q := p;
    while line[q] != NUL && line[q] != ' ' && line[q] != '\t'
      invariant p <= q && Untouched(line[..], s, q)
      invariant FirstWord(s[p..]) == s[p..q] + FirstWord(s[q..])
      decreases |s| - q
    {
      WordGoesOn(line[..], s, p, q);
      q := q + 1;
    }
    WordStops(line[..], s, p, q);
  }

  /** One more character of the word. */
  lemma WordGoesOn(line: seq<char>, s: string, p: nat, q: nat)
    requires p <= q && Untouched(line, s, q) && line[q] != NUL && !IsBlank(line[q])
    ensures q < |s| && Untouched(line, s, q + 1)
    ensures FirstWord(s[p..]) == s[p..q] + FirstWord(s[q..])
            ==> FirstWord(s[p..]) == s[p..q + 1] + FirstWord(s[q + 1..])
  {
    assert line[q..|s|][0] == s[q..][0];
    assert s[q..][1..] == s[q + 1..];
    assert line[q..|s|][1..] == line[q + 1..|s|];
    assert s[p..q + 1] == s[p..q] + [s[q]];
  }

  lemma WordStops(line: seq<char>, s: string, p: nat, q: nat)
    requires NUL !in s && p <= q && Untouched(line, s, q) && (line[q] == NUL || IsBlank(line[q]))
    requires FirstWord(s[p..]) == s[p..q] + FirstWord(s[q..])
    ensures FirstWord(s[p..]) == s[p..q] && AfterWord(s[p..]) == s[q..] && (q < |s| ==> IsBlank(s[q]))
  {
    assert q < |s| ==> line[q..|s|][0] == s[q..][0] && s[q] in s;
    assert FirstWord(s[q..]) == "";
    assert s[p..][q - p..] == s[q..];
  }

  /** The arguments before `argc` stand where `argv` says; all but the last are ended, and the last reaches up to
      `p`. */
  ghost predicate Placed(line: seq<char>, argv: seq<int>, args: seq<string>, argc: nat, p: nat) {
    && argc <= |argv| && argc <= |args|
    && (forall k :: 0 <= k < argc - 1 ==> Ended(line, argv[k], args[k]) && argv[k] + |args[k]| < p)
    && (argc > 0 ==> Stands(line, argv[argc - 1], args[argc - 1]) && argv[argc - 1] + |args[argc - 1]| == p)
  }

  /** All of them are ended. */
  ghost predicate AllEnded(line: seq<char>, argv: seq<int>, args: seq<string>) {
    |args| <= |argv| && forall k :: 0 <= k < |args| ==> Ended(line, argv[k], args[k])
  }

  /** Blanks after `p` became NULs: what stands before `p` still does, and its last word is ended. */
  lemma SkippedKeeps(was: seq<char>, line: seq<char>, argv: seq<int>, args: seq<string>, argc: nat, p: nat, k: nat)
    requires Placed(was, argv, args, argc, p) && k < argc && p < |line| == |was| && line[..p] == was[..p]
    requires line[p] == NUL
    ensures Ended(line, argv[k], args[k]) && argv[k] + |args[k]| <= p
  {
    var (at, w) := (argv[k], args[k]);
    assert at + |w| <= p;
    assert line[at..at + |w|] == line[..p][at..at + |w|] == was[..p][at..at + |w|] == was[at..at + |w|];
    if at + |w| < p {
      assert line[at + |w|] == line[..p][at + |w|] == was[..p][at + |w|];
    }
  }

  lemma EndedIsText(line: seq<char>, at: int, w: string)
    requires Ended(line, at, w) && NUL !in w
    ensures Terminated(line[at..]) && CStr(line[at..]) == w
  {
    var tail := line[at..];
    assert tail[..|w|] == w && tail[|w|] == NUL;
    CStrIs(tail, |w|);
  }

  /** Cuts the line up in place: each argument is the text at its place. */
  method ParseArguments(line: array<char>, argv: array<int>, maxArgs: nat) returns (argc: nat)
    requires Terminated(line[..]) && 1 <= maxArgs <= argv.Length
    modifies line, argv
    ensures argc == |Args(CStr(old(line[..])), maxArgs - 1)| < maxArgs && argv[argc] == -1
    ensures forall k :: 0 <= k < argc ==>
              && 0 <= argv[k] <= line.Length && Terminated(line[argv[k]..])
              && CStr(line[argv[k]..]) == Args(CStr(old(line[..])), maxArgs - 1)[k]
  {
    ghost var s := CStr(line[..]);
    ghost var args := Args(s, maxArgs - 1);
    CStrEnds(line[..]);
    argc := CutUp(line, argv, maxArgs);
    ArgsComeFrom(s, maxArgs - 1, NUL);
    argv[argc] := -1;
    forall k | 0 <= k < argc
      ensures 0 <= argv[k] <= line.Length && Terminated(line[argv[k]..]) && CStr(line[argv[k]..]) == args[k]
    {
      assert Ended(line[..], argv[k], args[k]);
      EndedIsText(line[..], argv[k], args[k]);
      assert line[..][argv[k]..] == line[argv[k]..];
    }
  }

  /** `argc` arguments have been cut off, and from `p` on there are more than room for none. */
  ghost predicate Cutting(line: seq<char>, argv: seq<int>, s: string, n: nat, argc: nat, p: nat) {
    var args := Args(s, n);
    && NUL !in s && Untouched(line, s, p) && argc < n && argc <= |args|
    && Placed(line, argv, args, argc, p)
    && (argc > 0 && p < |s| ==> IsBlank(s[p]))
    && args[argc..] == Args(s[p..], n - argc)
  }

  ghost predicate Cut(line: seq<char>, argv: seq<int>, s: string, n: nat, argc: nat) {
    argc == |Args(s, n)| && AllEnded(line, argv, Args(s, n))
  }

  /** No words are left. */
  lemma NoneLeft(line: seq<char>, argv: seq<int>, s: string, n: nat, argc: nat, p: nat)
    requires Cutting(line, argv, s, n, argc, p) && line[p] == NUL
    ensures Cut(line, argv, s, n, argc)
  {
    SkipEmpty();
    hide SkipBlanks;
    assert s[p..] == "";
  }

  lemma AllSkipped(line: seq<char>, argv: seq<int>, s: string, n: nat, argc: nat, p: nat, q: nat)
    requires argc <= |Args(s, n)| && argc < n <= |argv| && p <= |s| && Args(s, n)[argc..] == Args(s[p..], n - argc)
    requires q == |s| && s[q..] == SkipBlanks(s[p..])
    requires forall k :: 0 <= k < argc ==> Ended(line, argv[k], Args(s, n)[k])
    ensures Cut(line, argv, s, n, argc)
  {
    hide SkipBlanks;
    assert s[q..] == "";
    assert Args(s[p..], n - argc) == [];
  }

  lemma CuttingStarts(line: seq<char>, argv: seq<int>, s: string, n: nat)
    requires |s| < |line| && line[..|s|] == s && line[|s|] == NUL && NUL !in s && n <= |argv|
    ensures if n > 0 then Cutting(line, argv, s, n, 0, 0) else Cut(line, argv, s, n, 0)
  {
    assert s[0..] == s && Args(s, n)[0..] == Args(s, n);
  }

  /** The blanks before the next word are gone, and with them the end of the last word is marked. */
  lemma WordsEnded(was: seq<char>, line: seq<char>, argv: seq<int>, s: string, n: nat, argc: nat, p: nat, q: nat)
    requires Cutting(was, argv, s, n, argc, p) && was[p] != NUL
    requires |line| == |was| && Untouched(line, s, q) && p <= q && line[..p] == was[..p]
    requires (p < q ==> line[p] == NUL) && (p < |s| && IsBlank(s[p]) ==> p < q)
    ensures forall k :: 0 <= k < argc ==> Ended(line, argv[k], Args(s, n)[k]) && argv[k] + |Args(s, n)[k]| < q
  {
    hide Args;
    forall k | 0 <= k < argc ensures Ended(line, argv[k], Args(s, n)[k]) && argv[k] + |Args(s, n)[k]| < q {
      assert p < |s| && IsBlank(s[p]);
      SkippedKeeps(was, line, argv, Args(s, n), argc, p, k);
    }
  }

  /** Where the next word starts and ends in the line. */
  lemma NextWord(line: seq<char>, argv: seq<int>, s: string, n: nat, argc: nat, p: nat, q: nat, r: nat)
    requires argc < n && argc <= |Args(s, n)| && p <= |s| && Args(s, n)[argc..] == Args(s[p..], n - argc)
    requires p <= q <= r && q < |s| && NUL !in s && Untouched(line, s, q) && Untouched(line, s, r)
             && s[q..] == SkipBlanks(s[p..])
    requires FirstWord(s[q..]) == s[q..r] && AfterWord(s[q..]) == s[r..] && (r < |s| ==> IsBlank(s[r]))
    requires argc < |argv| && argv[argc] == q
    requires forall k :: 0 <= k < argc ==> Ended(line, argv[k], Args(s, n)[k]) && argv[k] + |Args(s, n)[k]| < q
    ensures if argc + 1 < n then Cutting(line, argv, s, n, argc + 1, r) else Cut(line, argv, s, n, argc + 1)
  {
    hide SkipBlanks, FirstWord, AfterWord;
    var args := Args(s, n);
    var left := Args(s[p..], n - argc);
    assert args[argc] == left[0] && args[argc + 1..] == left[1..];
    assert line[q..r] == line[q..|s|][..r - q] == s[q..][..r - q] == s[q..r];
    if argc + 1 < n {
      assert left == [s[q..r]] + Args(s[r..], n - argc - 1);
    } else {
      assert left == [s[q..]];
      assert line[q..q + |s[q..]|] == line[q..|s|];
    }
  }

  method CutUp(line: array<char>, argv: array<int>, maxArgs: nat) returns (argc: nat)
    requires Terminated(line[..]) && 1 <= maxArgs <= argv.Length
    modifies line, argv
    ensures Cut(line[..], argv[..], CStr(old(line[..])), maxArgs - 1, argc)
  {
    hide SkipBlanks, FirstWord, AfterWord, Placed, AllEnded;
    ghost var s := CStr(line[..]);
    ghost var n: nat := maxArgs - 1;
    CStrEnds(line[..]);
    argc := 0;
    var p := 0;
    CuttingStarts(line[..], argv[..], s, n);
    while line[p] != NUL && argc < maxArgs - 1
      invariant argc <= n && p < line.Length
      invariant if argc < n then Cutting(line[..], argv[..], s, n, argc, p) else Cut(line[..], argv[..], s, n, argc)
      decreases n - argc
    {
      ghost var was := line[..];
      var q := SkipInPlace(line, p, s);
      WordsEnded(was, line[..], argv[..], s, n, argc, p, q);
      if line[q] == NUL {
        AllSkipped(line[..], argv[..], s, n, argc, p, q);
        return;
      }
      argv[argc] := q;
      var r := SkipWord(line, q, s);
      NextWord(line[..], argv[..], s, n, argc, p, q, r);
      argc := argc + 1;
      p := r;
    }
    if argc < n {
      NoneLeft(line[..], argv[..], s, n, argc, p);
    }
  }
}
