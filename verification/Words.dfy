/**
 Command lines as words: what the tokenizer of the shell makes of a line, and
 the text that words joined by single blanks give.
 */
module Words {
  predicate IsBlank(c: char) {
    c == ' ' || c == '\t'
  }

  function SkipBlanks(s: string): (t: string)
    ensures |t| <= |s| && (t != "" ==> !IsBlank(t[0]))
  {
    if s != "" && IsBlank(s[0]) then SkipBlanks(s[1..]) else s
  }

  function FirstWord(s: string): (w: string)
    ensures |w| <= |s| && (s != "" && !IsBlank(s[0]) ==> w != "")
  {
    if s == "" || IsBlank(s[0]) then "" else [s[0]] + FirstWord(s[1..])
  }

  /** What follows the first word. */
  function AfterWord(s: string): (r: string)
    ensures |r| + |FirstWord(s)| == |s|
  {
    s[|FirstWord(s)|..]
  }

  lemma {:induction false} FirstWordEnds(s: string)
    ensures FirstWord(s) == s[..|FirstWord(s)|] && forall c :: c in FirstWord(s) ==> !IsBlank(c)
    ensures AfterWord(s) == "" || IsBlank(AfterWord(s)[0])
  {
    if s != "" && !IsBlank(s[0]) {
      FirstWordEnds(s[1..]);
      assert s[1..][..|FirstWord(s[1..])|] == s[1..|FirstWord(s)|];
    }
  }

  /** The words of a line: what lies between blanks. */
  function WordsOf(s: string): seq<string>
    decreases |s|
  {
    var t := SkipBlanks(s);
    if t == "" then [] else [FirstWord(t)] + WordsOf(AfterWord(t))
  }

  /** What the tokenizer yields with room for `n` words: the `n`-th is all that is left, untouched. */
  function Args(s: string, n: nat): (args: seq<string>)
    ensures |args| <= n
    decreases n
  {
    var t := SkipBlanks(s);
    if n == 0 || t == "" then []
    else if n == 1 then [t]
    else [FirstWord(t)] + Args(AfterWord(t), n - 1)
  }

  /** The line from its `k`-th word on. */
  function LineFrom(s: string, k: nat): string
    decreases k
  {
    var t := SkipBlanks(s);
    if k == 0 then t else LineFrom(AfterWord(t), k - 1)
  }

  /** Fewer words than room: exactly the words. Otherwise the first ones, and the rest of the line as it was. */
  lemma {:induction false} ArgsAreWords(s: string, n: nat)
    requires n > 0
    ensures |WordsOf(s)| < n ==> Args(s, n) == WordsOf(s)
    ensures |WordsOf(s)| >= n ==> |Args(s, n)| == n && Args(s, n) == WordsOf(s)[..n - 1] + [LineFrom(s, n - 1)]
    decreases n
  {
    hide SkipBlanks, FirstWord, AfterWord;
    var t := SkipBlanks(s);
    if t != "" {
      var rest := AfterWord(t);
      if n > 1 {
        ArgsAreWords(rest, n - 1);
        if |WordsOf(s)| >= n {
          assert WordsOf(s)[..n - 1] == [FirstWord(t)] + WordsOf(rest)[..n - 2];
        }
      }
    }
  }

  // ---- Joining ------------------------------------------------------------------

  /** Words with single blanks between them. */
  function Joined(words: seq<string>): string {
    if words == [] then "" else if |words| == 1 then words[0]
        else Joined(words[..|words| - 1]) + " " + words[|words| - 1]
  }

  lemma {:induction false} JoinedPrefix(words: seq<string>, i: nat)
    requires i <= |words|
    ensures |Joined(words[..i])| <= |Joined(words)|
  {
    if i < |words| {
      JoinedPrefix(words[..|words| - 1], i);
      assert words[..|words| - 1][..i] == words[..i];
      if |words| == 1 {
        assert words[..i] == [];
      }
    } else {
      assert words[..i] == words;
    }
  }

  lemma JoinedGrows(words: seq<string>, i: nat)
    requires i < |words|
    ensures Joined(words[..i + 1]) == if i == 0 then words[0] else Joined(words[..i]) + " " + words[i]
    ensures |Joined(words[..i + 1])| <= |Joined(words)|
  {
    assert words[..i + 1][..i] == words[..i];
    JoinedPrefix(words, i + 1);
  }

  lemma {:induction false} JoinedFront(words: seq<string>)
    requires |words| > 1
    ensures Joined(words) == words[0] + " " + Joined(words[1..])
  {
    var front := words[..|words| - 1];
    if |words| > 2 {
      JoinedFront(front);
      assert front[1..] == words[1..][..|words[1..]| - 1];
      assert Joined(words) == words[0] + " " + (Joined(front[1..]) + " " + words[|words| - 1]);
    }
  }

  // ---- Round trips --------------------------------------------------------------

  /** The shape of what the tokenizer yields: blank-free words, but for the one that takes the rest. */
  predicate IsArgs(words: seq<string>, n: nat) {
    && |words| <= n
    && forall i :: 0 <= i < |words| ==>
         words[i] != "" && !IsBlank(words[i][0]) && (i < n - 1 ==> forall c :: c in words[i] ==> !IsBlank(c))
  }

  lemma {:induction false} ArgsAreArgs(s: string, n: nat)
    ensures IsArgs(Args(s, n), n)
    decreases n
  {
    hide SkipBlanks, FirstWord, AfterWord;
    var t := SkipBlanks(s);
    FirstWordEnds(t);
    if n > 1 && t != "" {
      ArgsAreArgs(AfterWord(t), n - 1);
    }
  }

  lemma {:induction false} FirstWordIs(w: string, rest: string)
    requires (forall c :: c in w ==> !IsBlank(c)) && (rest == "" || IsBlank(rest[0]))
    ensures FirstWord(w + rest) == w && AfterWord(w + rest) == rest
  {
    if w == "" {
      assert w + rest == rest;
    } else {
      assert (w + rest)[1..] == w[1..] + rest;
      FirstWordIs(w[1..], rest);
    }
  }

  /** A blank before the words makes no difference. */
  lemma BlankFirst(s: string, n: nat)
    requires s != "" && IsBlank(s[0])
    ensures Args(s, n) == Args(s[1..], n)
  {
  }

  lemma SkipEmpty()
    ensures SkipBlanks("") == ""
  {
  }

  lemma SkipNothing(s: string)
    requires s != "" && !IsBlank(s[0])
    ensures SkipBlanks(s) == s
  {
  }

  /** Parsing joined words gives the words back. */
  lemma {:induction false} ParseJoined(words: seq<string>, n: nat)
    requires IsArgs(words, n)
    ensures Args(Joined(words), n) == words
    decreases n
  {
    hide SkipBlanks, FirstWord, AfterWord;
    if words == [] {
      SkipEmpty();
    } else {
      var s := Joined(words);
      var (w, rest) := (words[0], words[1..]);
      var tail := if rest == [] then "" else " " + Joined(rest);
      if rest == [] {
        assert s == w + tail;
      } else {
        JoinedFront(words);
        assert s == w + tail;
        BlankFirst(tail, n - 1);
        assert tail[1..] == Joined(rest);
      }
      SkipNothing(s);
      if n > 1 {
        FirstWordIs(w, tail);
        ParseJoined(rest, n - 1);
        assert Args(tail, n - 1) == rest;
      }
      assert words == [w] + rest;
    }
  }

  /** Joining what a line parses to and parsing again changes nothing, for every line. */
  lemma Reparse(s: string, n: nat)
    ensures Args(Joined(Args(s, n)), n) == Args(s, n)
  {
    ArgsAreArgs(s, n);
    ParseJoined(Args(s, n), n);
  }

  /** The arguments of a line joined again are no longer than the line. */
  lemma {:induction false} JoinedIsNoLonger(s: string, n: nat)
    ensures |Joined(Args(s, n))| <= |s|
    decreases n
  {
    hide SkipBlanks, FirstWord, AfterWord;
    var t := SkipBlanks(s);
    if n > 1 && t != "" {
      var (args, rest) := (Args(s, n), AfterWord(t));
      FirstWordEnds(t);
      assert args[1..] == Args(rest, n - 1);
      if |args| > 1 {
        JoinedFront(args);
        if rest == "" {
          SkipEmpty();
        }
        BlankFirst(rest, n - 1);
        JoinedIsNoLonger(rest[1..], n - 1);
      }
    }
  }

  lemma {:induction false} JoinedBehind(words: seq<string>, k: nat)
    requires k <= |words|
    ensures |Joined(words[k..])| <= |Joined(words)|
  {
    if k == 0 {
      assert words[0..] == words;
    } else if |words| == 1 {
      assert words[k..] == [];
    } else {
      JoinedFront(words);
      JoinedBehind(words[1..], k - 1);
      assert words[1..][k - 1..] == words[k..];
    }
  }

  /** Nor are the arguments from any on, such as the text that `write` is given. */
  lemma ArgumentsFit(s: string, n: nat, k: nat)
    requires k <= |Args(s, n)|
    ensures |Joined(Args(s, n)[k..])| <= |s|
  {
    JoinedIsNoLonger(s, n);
    JoinedBehind(Args(s, n), k);
  }

  /** Any list of proper words is what its own text consists of. */
  lemma WordsOfJoined(words: seq<string>)
    requires forall i :: 0 <= i < |words| ==> words[i] != "" && forall c :: c in words[i] ==> !IsBlank(c)
    ensures WordsOf(Joined(words)) == words
  {
    var n := |words| + 1;
    forall i | 0 <= i < |words| ensures !IsBlank(words[i][0]) {
      assert words[i][0] in words[i];
    }
    ParseJoined(words, n);
    ArgsAreWords(Joined(words), n);
  }

  // ---- What separates words -----------------------------------------------------

  lemma {:induction false} FirstWordBefore(s: string, rest: string)
    requires s != "" && rest != "" && IsBlank(rest[0])
    ensures FirstWord(s + rest) == FirstWord(s) && AfterWord(s + rest) == AfterWord(s) + rest
  {
    if IsBlank(s[0]) {
      assert (s + rest)[0] == s[0];
    } else {
      assert (s + rest)[1..] == s[1..] + rest;
      if s[1..] != "" {
        FirstWordBefore(s[1..], rest);
      } else {
        assert s[1..] + rest == rest;
      }
    }
    assert (s + rest)[|FirstWord(s)|..] == s[|FirstWord(s)|..] + rest;
  }

  lemma {:induction false} SkipBlanksBefore(s: string, rest: string)
    ensures SkipBlanks(s + rest) == if SkipBlanks(s) == "" then SkipBlanks(rest) else SkipBlanks(s) + rest
  {
    if s == "" {
      assert s + rest == rest;
    } else {
      assert (s + rest)[0] == s[0];
      if IsBlank(s[0]) {
        assert (s + rest)[1..] == s[1..] + rest;
        SkipBlanksBefore(s[1..], rest);
      }
    }
  }

  /** A blank or a tab separates words, wherever it stands. */
  lemma {:induction false} BlanksSeparate(s: string, c: char, t: string)
    requires c == ' ' || c == '\t'
    ensures WordsOf(s + [c] + t) == WordsOf(s) + WordsOf(t)
    decreases |s|
  {
    hide SkipBlanks, FirstWord, AfterWord;
    var rest := [c] + t;
    assert s + [c] + t == s + rest;
    SkipBlanksBefore(s, rest);
    var u := SkipBlanks(s);
    if u == "" {
      assert WordsOf(rest) == WordsOf(t) by {
        SkipOne(c, t);
      }
    } else {
      FirstWordBefore(u, rest);
      BlanksSeparate(AfterWord(u), c, t);
      assert AfterWord(u) + [c] + t == AfterWord(u) + rest;
    }
  }

  lemma SkipOne(c: char, t: string)
    requires IsBlank(c)
    ensures SkipBlanks([c] + t) == SkipBlanks(t)
  {
    assert ([c] + t)[1..] == t;
  }

  /** And nothing else does. */
  lemma OneWordOf(w: string)
    requires w != "" && ' ' !in w && '\t' !in w
    ensures WordsOf(w) == [w]
  {
    assert Joined([w]) == w;
    WordsOfJoined([w]);
  }

  function Letters(s: string): string {
    if s == "" then "" else (if IsBlank(s[0]) then "" else [s[0]]) + Letters(s[1..])
  }

  function Concat(words: seq<string>): string {
    if words == [] then "" else words[0] + Concat(words[1..])
  }

  lemma {:induction false} LettersSkip(s: string)
    ensures Letters(SkipBlanks(s)) == Letters(s)
    ensures Letters(s) == FirstWord(s) + Letters(AfterWord(s))
  {
    if s != "" {
      LettersSkip(s[1..]);
      if !IsBlank(s[0]) {
        assert AfterWord(s) == AfterWord(s[1..]);
      }
    }
  }

  /** The words of a line keep every character that is not a blank, in order. */
  lemma {:induction false} WordsKeepText(s: string)
    ensures Concat(WordsOf(s)) == Letters(s)
    decreases |s|
  {
    hide SkipBlanks, FirstWord, AfterWord;
    var t := SkipBlanks(s);
    LettersSkip(s);
    LettersSkip(t);
    if t != "" {
      WordsKeepText(AfterWord(t));
    }
  }

  /** Words come out of the line: no other characters than the line's. */
  lemma {:induction false} ArgsComeFrom(s: string, n: nat, c: char)
    requires c !in s
    ensures forall w :: w in Args(s, n) ==> c !in w
    decreases n
  {
    hide SkipBlanks, FirstWord, AfterWord;
    var t := SkipBlanks(s);
    SkipsFrom(s, c);
    if n > 1 && t != "" {
      FirstWordEnds(t);
      AfterWordComesFrom(t, c);
      ArgsComeFrom(AfterWord(t), n - 1, c);
    }
  }

  lemma AfterWordComesFrom(s: string, c: char)
    requires c !in s
    ensures c !in AfterWord(s)
  {
  }

  lemma {:induction false} SkipsFrom(s: string, c: char)
    requires c !in s
    ensures c !in SkipBlanks(s)
  {
    if s != "" && IsBlank(s[0]) {
      SkipsFrom(s[1..], c);
    }
  }
}
