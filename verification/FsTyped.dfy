/**
 What typed lines do, from the keys to the tree: each command by the text that
 runs it.
 */
module FsTyped {
  import opened Machine
  import opened FsTree
  import opened SkullFs
  import opened Words
  import opened PathWalk
  import opened FsCommands
  import opened FsRuns
  import opened FsPaths
  import opened FsShell
  import LE = LineEditor
  import Shell

  /** A word that can be typed: printable, without blanks. */
  predicate IsWord(w: string) {
    w != "" && forall c :: c in w ==> 33 <= c as nat <= 126
  }

  /** The line is those words with single blanks between them, and fits. */
  predicate IsTyped(line: string, words: seq<string>) {
    && line == Joined(words) && |line| <= 79 && words != [] && |words| <= 15
    && forall w :: w in words ==> IsWord(w)
  }

  /** The keys type the line and Enter at a prompt, and the lines that gives have run on the file system from a sound
      state
      on. */
  ghost predicate Ran(e: LE.Editor, line: string, root: nat, states: seq<Snapshot>, outcomes: seq<Option<Outcome>>) {
    e.text == "" && LinesRun(states, Submitted(e, line + "\n"), outcomes) && |states| > 0 && Sound(states[0], root)
  }

  lemma {:induction false} JoinedIsLine(words: seq<string>)
    requires forall w :: w in words ==> IsWord(w)
    ensures forall c :: c in Joined(words) ==> LE.IsText(c)
  {
    if words != [] {
      var (front, last) := (words[..|words| - 1], words[|words| - 1]);
      assert last in words;
      assert forall w :: w in front ==> w in words;
      JoinedIsLine(front);
    }
  }

  lemma WordsAreArgs(words: seq<string>)
    requires |words| <= 15 && forall w :: w in words ==> IsWord(w)
    ensures IsArgs(words, Shell.MAX_ARGS - 1)
  {
    forall i | 0 <= i < |words| ensures words[i] != "" && forall c :: c in words[i] ==> !IsBlank(c) {
      assert words[i] in words;
    }
    forall i | 0 <= i < |words| ensures !IsBlank(words[i][0]) {
      assert words[i][0] in words[i];
    }
  }

  /** Such a line is submitted, and its words are the arguments of the command. */
  lemma LineRan(e: LE.Editor, line: string, words: seq<string>, root: nat,
                states: seq<Snapshot>, outcomes: seq<Option<Outcome>>)
    requires IsTyped(line, words) && Ran(e, line, root, states, outcomes)
    ensures |states| == 2 && |outcomes| == 1
    ensures match CommandOf(words)
            case None => outcomes[0].None? && states[1] == states[0]
            case Some(c) => outcomes[0].Some? && Effect(states[0], c, outcomes[0].value, states[1])
  {
    hide Joined, IsArgs, CommandOf, Effect, LE.Session, Sound;
    JoinedIsLine(words);
    WordsAreArgs(words);
    CommandOfLine(words);
    OneLineKeys(line);
    TypedIsSubmitted(e, [line]);
    assert LineEffect(states[0], line, outcomes[0], states[1]);
  }

  lemma OneLineKeys(line: string)
    ensures KeysOf([line]) == line + "\n"
  {
    assert [line][..0] == [];
    assert [] + line == line;
  }

  lemma TwoWords(w: string, x: string)
    ensures Joined([w, x]) == w + " " + x
  {
    assert [w, x][..1] == [w];
  }

  // ---- Each command by its text -----------------------------------------------------

  /** `mkdir` and a path: exactly if its directory is there, nothing is at the path, and three blocks are there, an
      empty
      directory is at the path afterwards. */
  lemma TypedMkdir(e: LE.Editor, path: string, dir: string, x: string, root: nat,
                   states: seq<Snapshot>, outcomes: seq<Option<Outcome>>)
    requires IsWord(path) && |path| <= 70 && IsPath(path, dir, x)
    requires Ran(e, "mkdir " + path, root, states, outcomes)
    ensures |states| == 2 && |outcomes| == 1 && outcomes[0].Some?
    ensures var (t, after, ok) := (states[0].v.tree, states[1].v.tree, outcomes[0].value.ok);
            && (ok <==> CanMake(t, path, dir) && DirGrants(states[0].blocks).Some?)
            && if ok then MadeAt(t, path, Dir([]), after) else after == t
  {
    hide Sound, LinesRun, MakesDir, CanMake, MadeAt, IsPath, Joined;
    TwoWords("mkdir", path);
    LineRan(e, "mkdir " + path, ["mkdir", path], root, states, outcomes);
    MkdirMakes(states[0], root, path, dir, x, outcomes[0].value.ok, states[1]);
  }

  /** `touch` and a path: the same for an empty file and two blocks. */
  lemma TypedTouch(e: LE.Editor, path: string, dir: string, x: string, root: nat,
                   states: seq<Snapshot>, outcomes: seq<Option<Outcome>>)
    requires IsWord(path) && |path| <= 70 && IsPath(path, dir, x)
    requires Ran(e, "touch " + path, root, states, outcomes)
    ensures |states| == 2 && |outcomes| == 1 && outcomes[0].Some?
    ensures var (t, after, ok) := (states[0].v.tree, states[1].v.tree, outcomes[0].value.ok);
            && (ok <==> CanMake(t, path, dir) && FileGrants(states[0].blocks).Some?)
            && if ok then MadeAt(t, path, File([]), after) else after == t
  {
    hide Sound, LinesRun, MakesFile, CanMake, MadeAt, IsPath, Joined;
    TwoWords("touch", path);
    LineRan(e, "touch " + path, ["touch", path], root, states, outcomes);
    TouchMakes(states[0], root, path, dir, x, outcomes[0].value.ok, states[1]);
  }

  /** `rm` and a path, but for `.` and `..`: exactly what can go, a file or a directory with at most two entries, is
      gone
      from the path afterwards. */
  lemma TypedRm(e: LE.Editor, path: string, dir: string, x: string, root: nat,
                states: seq<Snapshot>, outcomes: seq<Option<Outcome>>)
    requires IsWord(path) && |path| <= 70 && IsPath(path, dir, x)
    requires Ran(e, "rm " + path, root, states, outcomes)
    ensures |states| == 2 && |outcomes| == 1 && outcomes[0].Some?
    ensures var (t, after, ok) := (states[0].v.tree, states[1].v.tree, outcomes[0].value.ok);
            && (ok <==> x != "." && x != ".." && MayGo(t, path))
            && if ok then GoneFrom(t, path, after) else after == t
  {
    hide Sound, LinesRun, Removes, MayGo, GoneFrom, IsPath, Joined;
    TwoWords("rm", path);
    LineRan(e, "rm " + path, ["rm", path], root, states, outcomes);
    RmRemoves(states[0], root, path, dir, x, outcomes[0].value.ok, states[1]);
  }

  /** `ls` and a path: it shows something exactly if a directory is there, and then a name exactly if the path with that
      name behind it leads to something, marked if that is a directory. */
  lemma TypedLs(e: LE.Editor, path: string, x: string, root: nat,
                states: seq<Snapshot>, outcomes: seq<Option<Outcome>>)
    requires IsWord(path) && |path| <= 70 && x != "" && '/' !in x && |x| <= 127
    requires Ran(e, "ls " + path, root, states, outcomes) && SlashFree(states[0].v.tree)
    ensures |states| == 2 && |outcomes| == 1 && outcomes[0].Some? && states[1] == states[0]
    ensures var (t, lines) := (states[0].v.tree, outcomes[0].value.lines);
            && (lines.Some? <==> Resolved(t, path).Some? && IsDir(t, Resolved(t, path).value))
            && (lines.Some? ==>
                  var there := Resolved(t, path + "/" + x);
                  && (x + "/" in lines.value <==> there.Some? && IsDir(t, there.value))
                  && (x in lines.value <==> there.Some? && !IsDir(t, there.value)))
  {
    hide Sound, LinesRun, Resolved, Listed, SlashFree, Joined;
    TwoWords("ls", path);
    LineRan(e, "ls " + path, ["ls", path], root, states, outcomes);
    TreeOfSound(states[0], root);
    LsShows(states[0].v.tree, path, x);
  }

  /** `ls` alone: the same for the root. */
  lemma TypedLsAlone(e: LE.Editor, x: string, root: nat, states: seq<Snapshot>, outcomes: seq<Option<Outcome>>)
    requires x != "" && '/' !in x && |x| <= 127
    requires Ran(e, "ls", root, states, outcomes) && SlashFree(states[0].v.tree)
    ensures |states| == 2 && |outcomes| == 1 && outcomes[0].Some? && states[1] == states[0]
    ensures var (t, lines) := (states[0].v.tree, outcomes[0].value.lines);
            var there := Resolved(t, "/" + x);
            && lines.Some?
            && (x + "/" in lines.value <==> there.Some? && IsDir(t, there.value))
            && (x in lines.value <==> there.Some? && !IsDir(t, there.value))
  {
    hide Sound, LinesRun, Resolved, Listed, SlashFree, Joined;
    OneWord("ls");
    LineRan(e, "ls", ["ls"], root, states, outcomes);
    TreeOfSound(states[0], root);
    NoPathIsRoot(states[0].v.tree);
    LsShows(states[0].v.tree, "", x);
    assert "" + "/" + x == "/" + x;
  }

  lemma OneWord(w: string)
    ensures Joined([w]) == w
  {
  }

  /** `cat` and a path that leads to a file: it shows the file's bytes exactly if the path has no slash. */
  lemma TypedCat(e: LE.Editor, path: string, root: nat, states: seq<Snapshot>, outcomes: seq<Option<Outcome>>)
    requires IsWord(path) && |path| <= 70 && Ran(e, "cat " + path, root, states, outcomes)
    requires var t := states[0].v.tree;
             SlashFree(t) && Resolved(t, path).Some? && !IsDir(t, Resolved(t, path).value)
    ensures |states| == 2 && |outcomes| == 1 && outcomes[0].Some? && states[1] == states[0]
    ensures var (t, q) := (states[0].v.tree, Resolved(states[0].v.tree, path).value);
            q in t && outcomes[0].value.shown == if '/' in path then None else Some(t[q].bytes)
  {
    hide Sound, LinesRun, Resolved, Shown, SlashFree, Joined;
    TwoWords("cat", path);
    LineRan(e, "cat " + path, ["cat", path], root, states, outcomes);
    TreeOfSound(states[0], root);
    CatShowsIff(states[0].v.tree, path);
  }

  /** `write`, a path where nothing is, and a text: a file is there afterwards exactly if its directory is there and two
      blocks are, and it holds the text exactly if memory for that was found. */
  lemma TypedWrite(e: LE.Editor, path: string, dir: string, x: string, words: seq<string>, root: nat,
                   states: seq<Snapshot>, outcomes: seq<Option<Outcome>>)
    requires IsPath(path, dir, x) && 0 < |words| <= 13
             && IsTyped(Joined(["write", path] + words), ["write", path] + words)
    requires Ran(e, Joined(["write", path] + words), root, states, outcomes)
    requires Resolved(states[0].v.tree, path) == None
    ensures |states| == 2 && |outcomes| == 1 && outcomes[0].Some?
    ensures var (t, after, ok) := (states[0].v.tree, states[1].v.tree, outcomes[0].value.ok);
            if CanMake(t, path, dir) && FileGrants(states[0].blocks).Some?
            then MadeAt(t, path, File(if ok then ToBytes(Joined(words)) else []), after)
            else !ok && after == t
  {
    hide Sound, LinesRun, Resolved, Writes, WriteSucceeds, CanMake, MadeAt, IsPath, Joined, CommandOf, ToBytes, IsTyped;
    LineRan(e, Joined(["write", path] + words), ["write", path] + words, root, states, outcomes);
    WriteCommand(path, words);
    WriteMakes(states[0], root, path, dir, x, ToBytes(Joined(words)), outcomes[0].value.ok, states[1]);
  }

  /** A line that names none of the six commands, or gives too few arguments, does nothing to the file system. */
  lemma TypedNothing(e: LE.Editor, line: string, words: seq<string>, root: nat,
                     states: seq<Snapshot>, outcomes: seq<Option<Outcome>>)
    requires IsTyped(line, words) && Ran(e, line, root, states, outcomes)
    requires || words[0] !in {"ls", "cat", "mkdir", "touch", "rm", "write"}
             || (|words| == 1 && words[0] != "ls") || (|words| == 2 && words[0] == "write")
    ensures |states| == 2 && states[1] == states[0] && outcomes == [None]
  {
    hide Sound, LinesRun, Joined;
    LineRan(e, line, words, root, states, outcomes);
  }
}
