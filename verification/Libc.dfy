/**
 The string routines the kernel brings along, as loops over character arrays.
 A C string is what an array holds up to its first NUL.
 */
module Libc {
  const NUL: char := '\0'

  function CStr(s: seq<char>): string {
    if s == [] || s[0] == NUL then "" else [s[0]] + CStr(s[1..])
  }

  /** Holds a NUL, so that a reader stops inside the array. */
  predicate Terminated(s: seq<char>) {
    NUL in s
  }

  lemma {:induction false} CStrIs(s: seq<char>, n: nat)
    requires n < |s| && s[n] == NUL && NUL !in s[..n]
    ensures CStr(s) == s[..n]
  {
    if n > 0 {
      assert s[0] == s[..n][0];
      assert s[1..][..n - 1] == s[..n][1..];
      CStrIs(s[1..], n - 1);
    }
  }

  lemma {:induction false} CStrEnds(s: seq<char>)
    requires Terminated(s)
    ensures |CStr(s)| < |s| && s[..|CStr(s)|] == CStr(s) && s[|CStr(s)|] == NUL && NUL !in CStr(s)
    ensures forall i :: 0 <= i < |CStr(s)| ==> s[i] == CStr(s)[i] != NUL
  {
    if s[0] != NUL {
      assert NUL in s[1..];
      CStrEnds(s[1..]);
    }
  }

  method Strlen(s: array<char>) returns (len: nat)
    requires Terminated(s[..])
    ensures len == |CStr(s[..])|
  {
    CStrEnds(s[..]);
    len := 0;
    while s[len] != NUL
      invariant len <= |CStr(s[..])|
      decreases s.Length - len
    {
      len := len + 1;
    }
    assert s[len] == s[..][len];
  }

  /** Copies at most `n` characters and fills the rest of the `n` with NULs. */
  method Strncpy(dest: array<char>, src: string, n: nat)
    requires n <= dest.Length && NUL !in src
    modifies dest
    ensures forall i :: 0 <= i < n ==> dest[i] == if i < |src| then src[i] else NUL
    ensures forall i :: n <= i < dest.Length ==> dest[i] == old(dest[i])
  {
    var i := 0;
    while i < n && i < |src|
      invariant i <= n && i <= |src|
      invariant forall j :: 0 <= j < i ==> dest[j] == src[j]
      invariant forall j :: n <= j < dest.Length ==> dest[j] == old(dest[j])
    {
      dest[i] := src[i];
      i := i + 1;
    }
    while i < n
      invariant i <= n && (i < n ==> i >= |src|)
      invariant forall j :: 0 <= j < i ==> dest[j] == if j < |src| then src[j] else NUL
      invariant forall j :: n <= j < dest.Length ==> dest[j] == old(dest[j])
    {
      dest[i] := NUL;
      i := i + 1;
    }
  }

  /** Appends `src`, with its terminator. */
  method Strcat(dest: array<char>, src: string)
    requires Terminated(dest[..]) && |CStr(dest[..])| + |src| < dest.Length && NUL !in src
    modifies dest
    ensures Terminated(dest[..]) && CStr(dest[..]) == CStr(old(dest[..])) + src
  {
    ghost var was := CStr(dest[..]);
    CStrEnds(dest[..]);
    var d := Strlen(dest);
    var i := 0;
    while i < |src|
      invariant i <= |src|
      invariant forall j :: 0 <= j < d ==> dest[j] == was[j]
      invariant forall j :: 0 <= j < i ==> dest[d + j] == src[j]
    {
      dest[d + i] := src[i];
      i := i + 1;
    }
    dest[d + i] := NUL;
    assert dest[..d + i] == was + src;
    CStrIs(dest[..], d + i);
  }

  /** Appends at most `n` characters of `src`, and a terminator. */
  method Strncat(dest: array<char>, src: string, n: nat)
    requires Terminated(dest[..]) && NUL !in src
    requires |CStr(dest[..])| + (if |src| < n then |src| else n) < dest.Length
    modifies dest
    ensures Terminated(dest[..])
    ensures CStr(dest[..]) == CStr(old(dest[..])) + if |src| < n then src else src[..n]
  {
    var part := if |src| < n then src else src[..n];
    Strcat(dest, part);
  }

  /** The C string at position `start` of an array. */
  method Text(s: array<char>, start: nat) returns (t: string)
    requires start <= s.Length && Terminated(s[start..])
    ensures t == CStr(s[start..])
  {
    var tail := s[start..];
    CStrEnds(tail);
    var i := 0;
    t := "";
    while s[start + i] != NUL
      invariant i <= |CStr(tail)| && t == CStr(tail)[..i] && tail == s[start..]
      decreases s.Length - start - i
    {
      assert s[start + i] == tail[i];
      t := t + [s[start + i]];
      i := i + 1;
    }
    assert s[start + i] == tail[i];
  }

  /** The character a C string has at `i`, its terminator included. */
  function At(s: string, i: nat): char {
    if i < |s| then s[i] else NUL
  }

  /** Zero exactly for equal strings; otherwise the difference at the first place where they differ. */
  method Strcmp(s1: string, s2: string) returns (r: int)
    requires NUL !in s1 && NUL !in s2
    ensures r == 0 <==> s1 == s2
    ensures r != 0 ==> exists i: nat :: i <= |s1| && i <= |s2| && s1[..i] == s2[..i]
                                        && r == At(s1, i) as int - At(s2, i) as int
  {
    var i := 0;
    while At(s1, i) != NUL && At(s1, i) == At(s2, i)
      invariant i <= |s1| && i <= |s2| && s1[..i] == s2[..i]
      decreases |s1| - i
    {
      i := i + 1;
    }
    r := At(s1, i) as int - At(s2, i) as int;
    if r == 0 {
      assert i == |s1| && i == |s2|;
      assert s1[..i] == s1 && s2[..i] == s2;
    }
  }
}
