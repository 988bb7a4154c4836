/**
 The shell on top of the file system: what lines typed at the keyboard do to
 it.
 */
module FsShell {
  import opened Machine
  import opened FsTree
  import opened FsModel
  import opened PathModel
  import opened SkullFs
  import opened Libc
  import opened Words
  import opened FsCommands
  import opened FsRuns
  import LE = LineEditor
  import Shell
  import Console
  import Keyboard
  import GuiModel
  import ConsoleModel

  // ---- Lines as commands --------------------------------------------------------

  /** The file command that arguments make; none if they are too few for it, or name another command. */
  function CommandOf(args: seq<string>): Option<Command> {
    if args == [] then None
    else if args[0] == "ls" then Some(List(if |args| > 1 then Some(args[1]) else None))
    else if args[0] == "mkdir" && |args| > 1 then Some(MakeDir(args[1]))
    else if args[0] == "touch" && |args| > 1 then Some(MakeFile(args[1]))
    else if args[0] == "rm" && |args| > 1 then Some(Remove(args[1]))
    else if args[0] == "cat" && |args| > 1 then Some(ShowFile(args[1]))
    else if args[0] == "write" && |args| > 2 then Some(WriteFile(args[1], args[2..]))
    else None
  }

  function LineCommand(line: string): Option<Command> {
    CommandOf(Args(line, Shell.MAX_ARGS - 1))
  }

  lemma JoinedHasWord(words: seq<string>, i: nat)
    requires i < |words|
    ensures |words[i]| <= |Joined(words)|
  {
    JoinedGrows(words, i);
  }

  /** The arguments of a typed line from the third on are a text for `write`. */
  lemma ArgumentsAreTexts(line: string)
    requires LE.IsLine(line)
    ensures var args := Args(line, Shell.MAX_ARGS - 1);
            |args| > 2 ==> Texts(args[2..])
  {
    hide Args;
    var n := Shell.MAX_ARGS - 1;
    var args := Args(line, n);
    if |args| > 2 {
      Shell.LineHasBytes(line);
      ArgsAreArgs(line, n);
      ArgumentsFit(line, n, 2);
    }
  }

  /** Every line that can be typed makes a command that the file system accepts, or none. */
  lemma LineIsWellformed(line: string)
    requires LE.IsLine(line)
    ensures LineCommand(line).Some? ==> Wellformed(LineCommand(line).value)
  {
    hide Args, Texts;
    var n := Shell.MAX_ARGS - 1;
    var args := Args(line, n);
    ArgumentsAreTexts(line);
    Shell.LineHasBytes(line);
    if |args| > 1 {
      assert args[1] in args;
      JoinedIsNoLonger(line, n);
      JoinedHasWord(args, 1);
    }
  }

  // ---- Running lines ------------------------------------------------------------

  /** What a line does: the effect of its command, or nothing. */
  ghost predicate LineEffect(s: Snapshot, line: string, o: Option<Outcome>, after: Snapshot) {
    match LineCommand(line)
    case None => o.None? && after == s
    case Some(c) => o.Some? && Effect(s, c, o.value, after)
  }

  /** The lines, one after the other, have their effects. */
  ghost predicate LinesRun(states: seq<Snapshot>, lines: seq<string>, outcomes: seq<Option<Outcome>>) {
    && |states| == |lines| + 1 && |outcomes| == |lines|
    && forall i :: 0 <= i < |lines| ==> LineEffect(states[i], lines[i], outcomes[i], states[i + 1])
  }

  lemma LinesMore(states: seq<Snapshot>, lines: seq<string>, outcomes: seq<Option<Outcome>>,
                  line: string, o: Option<Outcome>, after: Snapshot)
    requires LinesRun(states, lines, outcomes) && LineEffect(states[|lines|], line, o, after)
    ensures LinesRun(states + [after], lines + [line], outcomes + [o])
  {
    hide LineEffect;
  }

  /** The line asks `rm` for a `.` or `..`. */
  predicate RemovesSelf(line: string) {
    LineCommand(line).Some? && !NoSelf(LineCommand(line).value)
  }

  /** Parses a line and runs its command. */
  method ProcessLine(fs: FileSystem, line: string) returns (o: Option<Outcome>)
    requires fs.Valid() && fs.root != NULL && LE.IsLine(line)
    requires LineCommand(line).Some? ==> Allowed(fs.v.tree, LineCommand(line).value)
    modifies fs, fs.heap, fs.heap.mem
    ensures fs.Valid() && fs.root == old(fs.root)
    ensures LineEffect(old(Now(fs)), line, o, Now(fs))
  {
    hide Inv, Args, Effect, Wellformed, Allowed, CommandOf;
    LineIsWellformed(line);
    Shell.LineHasBytes(line);
    var args := Shell.Parse(line);
    var c := CommandOf(args);
    if c.None? {
      return None;
    }
    var outcome := Perform(fs, c.value);
    o := Some(outcome);
  }

  // ---- The loop -----------------------------------------------------------------

  /** The shell and the file system have no array in common. */
  ghost predicate Apart(loop: Shell.ShellLoop, fs: FileSystem)
    reads loop.screen, fs, fs.heap
  {
    var mem: object := fs.heap.mem;
    mem != loop.buffer && mem != loop.screen.vga && mem != loop.screen.keyboard.buffer
  }

  /** The lines submitted while `keys` come. */
  function Submitted(e: LE.Editor, keys: seq<char>): seq<string> {
    var all := LE.Session(e, keys).submitted;
    if |e.submitted| <= |all| then all[|e.submitted|..] else []
  }

  lemma {:induction false} SubmittedGrows(e: LE.Editor, keys: seq<char>)
    ensures e.submitted <= LE.Session(e, keys).submitted
  {
    if keys != [] {
      SubmittedGrows(e, keys[..|keys| - 1]);
    }
  }

  lemma SubmittedMore(e: LE.Editor, keys: seq<char>, c: char)
    requires LE.IsLine(e.text)
    ensures LE.IsLine(LE.Session(e, keys).text)
    ensures Submitted(e, keys + [c]) ==
            Submitted(e, keys) + if LE.IsEnter(c) then [LE.Session(e, keys).text] else []
    ensures LE.Session(e, keys + [c]).submitted ==
            LE.Session(e, keys).submitted + if LE.IsEnter(c) then [LE.Session(e, keys).text] else []
  {
    assert (keys + [c])[..|keys|] == keys;
    SubmittedGrows(e, keys);
    Shell.SessionIsLine(e, keys);
  }

  /** Waits for a key and handles it; an Enter gives the line it ends. */
  method Turn(loop: Shell.ShellLoop, ghost due: nat,
              ghost e: LE.Editor, ghost start: ConsoleModel.Page, ghost keys: seq<char>)
      returns (line: Option<string>, ghost c: char, ghost moment: nat)
    requires loop.Ready() && loop.screen.enabled && loop.Served(e, start, keys)
    requires loop.screen.point <= due && Console.KeyDue(loop.screen.arrivals, due)
    modifies loop`length, loop`submitted, loop.buffer
    modifies loop.screen, loop.screen.vga, loop.screen.kernel, loop.screen.gui
    modifies loop.screen.keyboard, loop.screen.keyboard.buffer
    ensures loop.Ready() && loop.screen.Undisturbed() && loop.Served(e, start, keys + [c])
    ensures line == if LE.IsEnter(c) then Some(LE.Session(e, keys).text) else None
    ensures line.Some? ==> LE.IsLine(line.value)
    ensures Submitted(e, keys + [c]) == Submitted(e, keys) + if line.Some? then [line.value] else []
    ensures var (before, now) := (Keyboard.Delivered(old(loop.screen.keyboard.history)), loop.screen.keyboard.history);
            && before <= Keyboard.Delivered(now) && |Keyboard.Delivered(now)| == |before| + 1
            && moment <= |now| && Shell.SpellsAt(now[..moment], |before|, c)
  {
    var count := |loop.submitted|;
    c, moment := loop.ServeKey(due, e, start, keys);
    SubmittedMore(e, keys, c);
    if |loop.submitted| > count {
      line := Some(loop.submitted[count]);
    } else {
      line := None;
    }
  }

  /** What came of the lines so far: all have run, or all but the last, an `rm` of `.` or `..`. */
  ghost predicate Progress(stopped: bool, lines: seq<string>, states: seq<Snapshot>, outcomes: seq<Option<Outcome>>) {
    if stopped then
      lines != [] && RemovesSelf(lines[|lines| - 1]) && LinesRun(states, lines[..|lines| - 1], outcomes)
    else LinesRun(states, lines, outcomes)
  }

  /** `states` lead from the one at `s` to the one now, and all represent their trees. */
  ghost predicate Through(s: Snapshot, fs: FileSystem, states: seq<Snapshot>)
    reads fs, fs.heap
  {
    |states| > 0 && states[0] == s && states[|states| - 1] == Now(fs) && forall q :: q in states ==> Sound(q, fs.root)
  }

  /** Runs the line that a key ended, if any. */
  method Respond(fs: FileSystem, line: Option<string>, before: seq<Option<Outcome>>,
                 ghost s: Snapshot, ghost lines: seq<string>, ghost been: seq<Snapshot>)
      returns (stopped: bool, outcomes: seq<Option<Outcome>>, ghost states: seq<Snapshot>)
    requires fs.Valid() && fs.root != NULL && (line.Some? ==> LE.IsLine(line.value))
    requires Progress(false, lines, been, before) && Through(s, fs, been)
    modifies fs, fs.heap, fs.heap.mem
    ensures fs.Valid() && fs.root == old(fs.root)
    ensures Progress(stopped, lines + if line.Some? then [line.value] else [], states, outcomes)
    ensures Through(s, fs, states)
  {
    hide Inv, Args, Effect, Wellformed, CommandOf, LineEffect, LinesRun, LE.IsLine;
    stopped, outcomes, states := false, before, been;
    if line.None? {
      assert lines + [] == lines;
      return;
    }
    assert (lines + [line.value])[..|lines|] == lines;
    if RemovesSelf(line.value) {
      stopped := true;
      return;
    }
    var o := ProcessLine(fs, line.value);
    assert been[|lines|] == been[|been| - 1] by {
      RunLengths(been, lines, before);
    }
    LinesMore(been, lines, before, line.value, o, Now(fs));
    outcomes, states := before + [o], been + [Now(fs)];
  }

  lemma RunLengths(states: seq<Snapshot>, lines: seq<string>, outcomes: seq<Option<Outcome>>)
    requires LinesRun(states, lines, outcomes)
    ensures |states| == |lines| + 1 && |outcomes| == |lines|
  {
  }

  lemma NothingRan(fs: FileSystem, e: LE.Editor)
    requires fs.Valid()
    ensures Progress(false, Submitted(e, []), [Now(fs)], []) && Through(Now(fs), fs, [Now(fs)])
  {
    hide Inv;
  }

  /** The shell loop on the file system: every line runs before the next key is taken. It goes on for `n` keys, or up to
      the first `rm` of `.` or `..`. */
  method Run(loop: Shell.ShellLoop, fs: FileSystem, n: nat, ghost next: nat -> nat)
      returns (ghost keys: seq<char>, ghost moments: seq<nat>,
               stopped: bool, outcomes: seq<Option<Outcome>>, ghost states: seq<Snapshot>)
    requires loop.Ready() && loop.screen.enabled && Apart(loop, fs) && fs.Valid() && fs.root != NULL
    requires forall p: nat :: p <= next(p) && Console.KeyDue(loop.screen.arrivals, next(p))
    modifies loop`length, loop`submitted, loop.buffer
    modifies loop.screen, loop.screen.vga, loop.screen.kernel, loop.screen.gui
    modifies loop.screen.keyboard, loop.screen.keyboard.buffer
    modifies fs, fs.heap, fs.heap.mem
    ensures loop.Ready() && fs.Valid() && fs.root == old(fs.root)
    ensures loop.Typed(|Keyboard.Delivered(old(loop.screen.keyboard.history))|, keys, moments)
    ensures loop.Served(old(loop.State()), old(loop.screen.Window()), keys)
    ensures |keys| == n || (|keys| < n && stopped)
    ensures Progress(stopped, Submitted(old(loop.State()), keys), states, outcomes) && Through(old(Now(fs)), fs, states)
  {
    hide Inv, Progress, Through, Submitted, LE.Session, LE.IsLine, Now, Console.KeyDue, GuiModel.Fired, Console.HalfOf,
         GuiModel.KeysUntil, Keyboard.KeyboardDriver.InOrder, Keyboard.Codes, Keyboard.Delivered, Keyboard.NeverFull,
         Console.Screen.Mirror, Shell.Spells, Shell.SpellsAt, Shell.Transcript, ConsoleModel.Windowed;
    keys, moments, stopped, outcomes, states := [], [], false, [], [Now(fs)];
    ghost var (e, start, keyboard, s) := (loop.State(), loop.screen.Window(), loop.screen.keyboard, Now(fs));
    ghost var first := |Keyboard.Delivered(keyboard.history)|;
    Shell.SaidNothing(loop.names, loop.reply, e, start);
    Shell.SpellsNothing(keyboard.history);
    NothingRan(fs, e);
    var i := 0;
    while i < n && !stopped
      invariant i == |keys| <= n
      invariant loop.Ready() && loop.screen.enabled && loop.screen.Undisturbed()
      invariant Shell.Spells(keyboard.history, first, keys, moments)
      invariant loop.Served(e, start, keys)
      invariant Apart(loop, fs) && fs.Valid() && fs.root == old(fs.root)
      invariant Progress(stopped, Submitted(e, keys), states, outcomes) && Through(s, fs, states)
      decreases n - i, !stopped
    {
      ghost var h := keyboard.history;
      var line;
      ghost var c, moment;
      line, c, moment := Turn(loop, next(loop.screen.point), e, start, keys);
      Shell.SpellsMore(h, first, keys, moments, keyboard.history, c, moment);
      stopped, outcomes, states := Respond(fs, line, outcomes, s, Submitted(e, keys), states);
      keys, moments, i := keys + [c], moments + [moment], i + 1;
    }
    loop.screen.KeysArriveIff();
  }

  /** The file commands of some lines. */
  function CommandsOf(lines: seq<string>): seq<Command> {
    if lines == [] then [] else
      var c := LineCommand(lines[|lines| - 1]);
      CommandsOf(lines[..|lines| - 1]) + if c.Some? then [c.value] else []
  }

  /** Lines that ran are a session of their file commands. */
  lemma {:induction false} LinesAreTrace(states: seq<Snapshot>, lines: seq<string>, outcomes: seq<Option<Outcome>>)
      returns (through: seq<Snapshot>, shown: seq<Outcome>)
    requires LinesRun(states, lines, outcomes) && forall line :: line in lines ==> LE.IsLine(line)
    ensures Trace(through, CommandsOf(lines), shown) && forall c :: c in CommandsOf(lines) ==> Wellformed(c)
    ensures through[0] == states[0] && through[|through| - 1] == states[|lines|]
    ensures forall s :: s in through ==> s in states
  {
    hide LineEffect, Effect, Wellformed, LE.IsLine, LineCommand, Allowed;
    if lines == [] {
      return states, [];
    }
    var n := |lines| - 1;
    through, shown := LinesAreTrace(states[..n + 1], lines[..n], outcomes[..n]);
    assert lines[n] in lines;
    LineIsWellformed(lines[n]);
    LineStep(states[n], lines[n], outcomes[n], states[n + 1]);
    if LineCommand(lines[n]).Some? {
      TraceMore(through, CommandsOf(lines[..n]), shown, LineCommand(lines[n]).value, outcomes[n].value, states[n + 1]);
      through, shown := through + [states[n + 1]], shown + [outcomes[n].value];
    }
  }

  lemma LineStep(s: Snapshot, line: string, o: Option<Outcome>, after: Snapshot)
    requires LineEffect(s, line, o, after)
    ensures if LineCommand(line).Some? then o.Some? && Effect(s, LineCommand(line).value, o.value, after)
            else after == s
  {
  }

  // ---- Typing and reading back ----------------------------------------------------

  lemma FrontIsLine(text: string)
    requires LE.IsLine(text) && text != ""
    ensures var (front, c) := (text[..|text| - 1], text[|text| - 1]);
            LE.IsLine(front) && !LE.IsEnter(c) && LE.Edited(front, c) == front + [c]
  {
    assert text[|text| - 1] in text;
    assert forall d :: d in text[..|text| - 1] ==> d in text;
  }

  lemma {:induction false} LineOfText(text: string)
    requires LE.IsLine(text)
    ensures LE.Line(text) == text && LE.NoEnter(text)
  {
    hide LE.Edited, LE.IsLine;
    if text != "" {
      var (front, c) := (text[..|text| - 1], text[|text| - 1]);
      FrontIsLine(text);
      LineOfText(front);
      assert front + [c] == text;
    }
  }

  /** The keys of some lines, each with its Enter. */
  function KeysOf(lines: seq<string>): seq<char> {
    if lines == [] then [] else KeysOf(lines[..|lines| - 1]) + lines[|lines| - 1] + "\n"
  }

  lemma EnterSubmits(e: LE.Editor, keys: seq<char>, line: string)
    requires LE.Session(e, keys).text == "" && LE.IsLine(line)
    ensures LE.Session(e, keys + line + "\n") == LE.Editor("", LE.Session(e, keys).submitted + [line])
  {
    hide LE.IsLine, LE.Line;
    LineOfText(line);
    LE.SessionLine(LE.Session(e, keys), line);
    LE.SessionThrough(e, keys, line);
    assert (keys + line + "\n")[..|keys + line|] == keys + line;
  }

  /** Lines that are typed are submitted as they are. */
  lemma {:induction false} TypedIsSubmitted(e: LE.Editor, lines: seq<string>)
    requires e.text == "" && forall line :: line in lines ==> LE.IsLine(line)
    ensures LE.Session(e, KeysOf(lines)) == LE.Editor("", e.submitted + lines) && Submitted(e, KeysOf(lines)) == lines
  {
    hide LE.IsLine, LE.Session;
    if lines == [] {
      NothingTyped(e);
    } else {
      var (front, line) := (lines[..|lines| - 1], lines[|lines| - 1]);
      assert line in lines;
      TypedIsSubmitted(e, front);
      EnterSubmits(e, KeysOf(front), line);
      assert e.submitted + lines == e.submitted + front + [line];
    }
    assert (e.submitted + lines)[|e.submitted|..] == lines;
  }

  lemma NothingTyped(e: LE.Editor)
    ensures LE.Session(e, []) == e && e.submitted + [] == e.submitted
  {
  }

  /** The line of some arguments has them as its arguments. */
  lemma CommandOfLine(args: seq<string>)
    requires IsArgs(args, Shell.MAX_ARGS - 1)
    ensures LineCommand(Joined(args)) == CommandOf(args)
  {
    ParseJoined(args, Shell.MAX_ARGS - 1);
  }

  /** A name in the root that a command line can give. */
  predicate PlainName(x: string) {
    x != "" && x != DOT && x != DOTDOT && SLASH !in x && |x| <= NAME_MAX && forall c :: c in x ==> !IsBlank(c)
  }

  lemma CatIsArgs(x: string)
    requires PlainName(x)
    ensures IsArgs(["cat", x], Shell.MAX_ARGS - 1) && CommandOf(["cat", x]) == Some(ShowFile(x))
  {
    assert x[0] in x;
  }

  lemma WriteCommand(x: string, words: seq<string>)
    requires words != []
    ensures CommandOf(["write", x] + words) == Some(WriteFile(x, words))
  {
    assert (["write", x] + words)[2..] == words;
  }

  /** `write` with a name and a text, then `cat` of that name, typed: the `write` succeeds exactly if the file is there
      or can be made and the memory is there, and then `cat` shows the text, with the rest of a longer old one behind
      it. */
  lemma TypedTextIsShown(e: LE.Editor, x: string, words: seq<string>, keys: seq<char>,
                         root: nat, states: seq<Snapshot>, outcomes: seq<Option<Outcome>>)
    requires e.text == "" && PlainName(x) && words != [] && IsArgs(["write", x] + words, Shell.MAX_ARGS - 1)
    requires LE.IsLine(Joined(["write", x] + words)) && LE.IsLine(Joined(["cat", x]))
    requires keys == KeysOf([Joined(["write", x] + words), Joined(["cat", x])])
    requires LinesRun(states, Submitted(e, keys), outcomes) && Sound(states[0], root)
    ensures |outcomes| == 2 && outcomes[0].Some? && outcomes[1].Some?
    ensures outcomes[0].value.ok <==> WriteSucceeds(states[0], x, |Joined(words)|)
    ensures outcomes[0].value.ok ==>
              var was := if Shown(states[0].v.tree, x).Some? then Shown(states[0].v.tree, x).value else [];
              var data := ToBytes(Joined(words));
              outcomes[1].value.shown == Some(data + if |data| < |was| then was[|data|..] else [])
  {
    hide IsArgs, Joined, Args, CommandOf, Shown, WriteSucceeds, Writes, Wrote, Opened, Sound, LE.Session, LE.IsLine,
         ToBytes;
    var lines := [Joined(["write", x] + words), Joined(["cat", x])];
    TypedIsSubmitted(e, lines);
    CommandOfLine(["write", x] + words);
    WriteCommand(x, words);
    CatIsArgs(x);
    CommandOfLine(["cat", x]);
    assert LineEffect(states[0], lines[0], outcomes[0], states[1]);
    assert LineEffect(states[1], lines[1], outcomes[1], states[2]);
    if outcomes[0].value.ok {
      var data := ToBytes(Joined(words));
      WritesMean(states[0], x, data, true, states[1]);
      TreeOfSound(states[0], root);
      CatShowsWhatWasWritten(states[0].v.tree, x, data, states[1].v.tree);
    }
  }

  // ---- On the screen ------------------------------------------------------------

  function Chars(data: seq<byte>): (s: string)
    ensures |s| == |data| && forall i :: 0 <= i < |s| ==> s[i] == data[i] as char
  {
    seq(|data|, i requires 0 <= i < |data| => data[i] as char)
  }

  /** The handler of `cat` prints what the file system shows, from a new line on, and ends it. */
  ghost predicate CatPrints(reply: (nat, seq<string>) -> Shell.ByteText, first: nat,
                            lines: seq<string>, outcomes: seq<Option<Outcome>>) {
    && |lines| == |outcomes|
    && forall i :: 0 <= i < |lines| && LineCommand(lines[i]).Some? && LineCommand(lines[i]).value.ShowFile?
                   && outcomes[i].Some? && outcomes[i].value.shown.Some? ==>
         reply(first + i, Args(lines[i], Shell.MAX_ARGS - 1)) == "\n" + Chars(outcomes[i].value.shown.value) + "\n"
  }

  lemma TextOfLine(x: string, words: seq<string>)
    requires words != [] && LE.IsLine(Joined(["write", x] + words))
    ensures LE.IsLine(Joined(words)) && Chars(ToBytes(Joined(words))) == Joined(words)
  {
    var (args, text) := (["write", x] + words, Joined(words));
    JoinedFront(args);
    assert args[1..] == [x] + words && args[1..][1..] == words;
    JoinedFront(args[1..]);
    forall c | c in text ensures LE.IsText(c) {
      assert c in Joined(args);
    }
    forall i | 0 <= i < |text| ensures Chars(ToBytes(text))[i] == text[i] {
      assert text[i] in text;
    }
  }

  /** A newline and a text behind whatever was printed: the text stands alone in the cursor's row. */
  lemma TextIsAt(p: ConsoleModel.Page, said: string, text: string)
    requires LE.BlankBelow(p) && ConsoleModel.Bytes(said) && LE.IsLine(text) && |text| < ConsoleModel.WIDTH
    ensures ConsoleModel.Bytes(said + "\n" + text)
    ensures LE.At(ConsoleModel.Windowed(p, ConsoleModel.Printing(said + "\n" + text)), text)
  {
    hide ConsoleModel.Put, ConsoleModel.Printing, ConsoleModel.Windowed, ConsoleModel.Bytes;
    Shell.NewlineIsBytes();
    Shell.BytesJoined(said, "\n");
    var q := ConsoleModel.Windowed(p, ConsoleModel.Printing(said));
    ConsoleModel.PrintAppend(p, said, '\n');
    LE.OutputKeepsBlank(p, ConsoleModel.Printing(said));
    LE.NewlineIsBlank(q);
    var start := ConsoleModel.Put(q, ConsoleModel.NEWLINE);
    assert LE.At(start, "");
    LE.TypeText(start, "", text);
    assert "" + text == text;
    Shell.PrintedTwice(p, said + "\n", text);
  }

  lemma WindowOfBlank(p: ConsoleModel.Page)
    requires LE.BlankBelow(p)
    ensures ConsoleModel.IsWindow(p)
  {
  }

  lemma PrintedByCat(names: seq<string>, reply: (nat, seq<string>) -> Shell.ByteText, e: LE.Editor, x: string,
                     text: string)
    requires "cat" in names && PlainName(x) && e.text == Joined(["cat", x]) && LE.IsLine(e.text)
    requires reply(|e.submitted|, ["cat", x]) == "\n" + text + "\n"
    ensures Shell.Printed(names, reply, e, '\n') == "\n\n" + "\n" + text + ("\n" + LE.PROMPT)
  {
    hide Args, Joined, LE.IsLine, ConsoleModel.Bytes, PlainName;
    CatIsArgs(x);
    ParseJoined(["cat", x], Shell.MAX_ARGS - 1);
  }

  /** What `cat` of a line that is about to end prints. */
  lemma CatOnScreen(names: seq<string>, reply: (nat, seq<string>) -> Shell.ByteText, e: LE.Editor, p: ConsoleModel.Page,
                    keys: seq<char>, x: string, text: string)
    requires LE.IsLine(e.text) && LE.BlankBelow(p) && "cat" in names && PlainName(x)
    requires LE.Session(e, keys).text == Joined(["cat", x]) && LE.IsLine(text) && |text| < ConsoleModel.WIDTH
    requires reply(|LE.Session(e, keys).submitted|, ["cat", x]) == "\n" + text + "\n"
    ensures ConsoleModel.Bytes("\n" + LE.PROMPT)
    ensures exists q :: LE.At(q, text)
                        && ConsoleModel.Windowed(p, Shell.Transcript(names, reply, e, keys + "\n"))
                           == ConsoleModel.Windowed(q, ConsoleModel.Printing("\n" + LE.PROMPT))
  {
    hide ConsoleModel.Put, ConsoleModel.Printing, ConsoleModel.Windowed, ConsoleModel.Bytes, Args, Joined, LE.At,
         LE.IsLine, LE.BlankBelow, Shell.Transcript, Shell.Printed, LE.Session, PlainName, Joined;
    WindowOfBlank(p);
    var mid := LE.Session(e, keys);
    var before := ConsoleModel.Windowed(p, Shell.Transcript(names, reply, e, keys));
    Shell.SaidMore(names, reply, e, p, keys, '\n');
    LE.OutputKeepsBlank(p, Shell.Transcript(names, reply, e, keys));
    Shell.NewlineIsBytes();
    Shell.BytesJoined("\n", "\n");
    assert "\n" + "\n" == "\n\n";
    TextIsAt(before, "\n\n", text);
    Shell.PromptIsBytes();
    Shell.BytesJoined("\n", LE.PROMPT);
    Shell.PrintedTwice(before, "\n\n" + "\n" + text, "\n" + LE.PROMPT);
    PrintedByCat(names, reply, mid, x, text);
    var q := ConsoleModel.Windowed(before, ConsoleModel.Printing("\n\n" + "\n" + text));
    assert LE.At(q, text);
  }

  lemma NoTextIsLine()
    ensures LE.IsLine("")
  {
  }

  /** The same keys on a screen that was cleared once: when the text has replaced all of the old one, it stands alone in
      a row, with the next prompt below it. */
  lemma TypedTextIsOnScreen(names: seq<string>, reply: (nat, seq<string>) -> Shell.ByteText, e: LE.Editor,
                            p: ConsoleModel.Page,
                            x: string, words: seq<string>, keys: seq<char>,
                            root: nat, states: seq<Snapshot>, outcomes: seq<Option<Outcome>>)
    requires e.text == "" && PlainName(x) && words != [] && IsArgs(["write", x] + words, Shell.MAX_ARGS - 1)
    requires LE.IsLine(Joined(["write", x] + words)) && LE.IsLine(Joined(["cat", x]))
    requires keys == KeysOf([Joined(["write", x] + words), Joined(["cat", x])])
    requires LinesRun(states, Submitted(e, keys), outcomes) && Sound(states[0], root)
    requires LE.BlankBelow(p) && "cat" in names && CatPrints(reply, |e.submitted|, Submitted(e, keys), outcomes)
    requires WriteSucceeds(states[0], x, |Joined(words)|) && |Joined(words)| < ConsoleModel.WIDTH
    requires Shown(states[0].v.tree, x).Some? ==> |Shown(states[0].v.tree, x).value| <= |Joined(words)|
    ensures ConsoleModel.Bytes("\n" + LE.PROMPT)
    ensures exists q :: LE.At(q, Joined(words))
                        && ConsoleModel.Windowed(p, Shell.Transcript(names, reply, e, keys))
                           == ConsoleModel.Windowed(q, ConsoleModel.Printing("\n" + LE.PROMPT))
  {
    hide ConsoleModel.Put, ConsoleModel.Printing, ConsoleModel.Windowed, ConsoleModel.Bytes, Args, Joined, LE.At,
         LE.IsLine, LE.BlankBelow, Shell.Transcript, LE.Session, LinesRun, Sound, WriteSucceeds, Shown, IsArgs,
         PlainName, CommandOf;
    var (first, last) := (Joined(["write", x] + words), Joined(["cat", x]));
    NoTextIsLine();
    TypedTextIsShown(e, x, words, keys, root, states, outcomes);
    TypedIsSubmitted(e, [first, last]);
    TextOfLine(x, words);
    var front := KeysOf([first]) + last;
    assert [first, last][..1] == [first];
    assert keys == front + "\n";
    TypedIsSubmitted(e, [first]);
    LineOfText(last);
    LE.SessionLine(LE.Session(e, KeysOf([first])), last);
    LE.SessionThrough(e, KeysOf([first]), last);
    CatIsArgs(x);
    CommandOfLine(["cat", x]);
    ParseJoined(["cat", x], Shell.MAX_ARGS - 1);
    CatOnScreen(names, reply, e, p, front, x, Joined(words));
  }
}
