/**
 The shell: the loop between the keyboard and the kernel window, with
 interrupts of both kinds anywhere in it.
 */
module Shell {
  import opened Machine
  import opened Libc
  import opened Words
  import opened Tokenizer
  import opened ConsoleModel
  import opened Console
  import opened LineEditor
  import opened KeyInput
  import GuiModel
  import Keyboard

  // ---- Commands -----------------------------------------------------------------------

  const MAX_ARGS: nat := 16

  type ByteText = s: string | Bytes(s)

  const UNKNOWN: string := "\nCommand not found: "
  const HINT: string := "\nType 'help' for " + ("a list of available " + "commands.\n")

  /** What the shell prints for a submitted line: its handler's reply, or that there is none. */
  function Answer(names: seq<string>, reply: (nat, seq<string>) -> ByteText, serial: nat, line: string): string {
    var args := Args(line, MAX_ARGS - 1);
    if args == [] then ""
    else if args[0] in names then "\n" + reply(serial, args)
    else UNKNOWN + args[0] + HINT
  }

  lemma BytesJoined(s: string, t: string)
    ensures Bytes(s) && Bytes(t) ==> Bytes(s + t)
  {
  }

  lemma NewlineIsBytes()
    ensures Bytes("\n")
  {
  }

  lemma PromptIsBytes()
    ensures Bytes(PROMPT)
  {
  }

  lemma MessagesAreBytes()
    ensures Bytes(UNKNOWN) && Bytes(HINT)
  {
    hide Bytes;
    UnknownIsBytes();
    HintIsBytes();
    BytesJoined("a list of available ", "commands.\n");
    BytesJoined("\nType 'help' for ", "a list of available " + "commands.\n");
  }

  lemma UnknownIsBytes()
    ensures Bytes(UNKNOWN)
  {
  }

  lemma HintIsBytes()
    ensures Bytes("\nType 'help' for ") && Bytes("a list of available ") && Bytes("commands.\n")
  {
  }

  lemma LineHasBytes(line: string)
    requires IsLine(line)
    ensures Bytes(line) && NUL !in line && forall w :: w in Args(line, MAX_ARGS - 1) ==> Bytes(w) && NUL !in w
  {
    hide Args;
    forall w, c | w in Args(line, MAX_ARGS - 1) && c in w ensures c as nat < 0x100 && c != NUL {
      if c !in line {
        ArgsComeFrom(line, MAX_ARGS - 1, c);
      }
    }
  }

  lemma AnswerIsBytes(names: seq<string>, reply: (nat, seq<string>) -> ByteText, serial: nat, line: string)
    requires IsLine(line)
    ensures Bytes(Answer(names, reply, serial, line))
  {
    hide Args, Bytes;
    var args := Args(line, MAX_ARGS - 1);
    LineHasBytes(line);
    MessagesAreBytes();
    NewlineIsBytes();
    if args == [] {
      assert Bytes("") by {
        NoBytes();
      }
    } else if args[0] in names {
      BytesJoined("\n", reply(serial, args));
    } else {
      assert args[0] in args;
      BytesJoined(UNKNOWN, args[0]);
      BytesJoined(UNKNOWN + args[0], HINT);
    }
  }

  lemma NoBytes()
    ensures Bytes("")
  {
  }

  /** Whether a command of that name is registered: the walk along the list with `strcmp`. */
  method Lookup(names: seq<string>, name: string) returns (found: bool)
    requires NUL !in name && forall n :: n in names ==> NUL !in n
    ensures found <==> name in names
  {
    found := false;
    var i := 0;
    while i < |names|
      invariant i <= |names| && name !in names[..i]
    {
      assert names[i] in names;
      var r := Strcmp(name, names[i]);
      if r == 0 {
        return true;
      }
      i := i + 1;
    }
  }

  /** The arguments of a line, parsed in a copy of it. */
  method Parse(line: string) returns (args: seq<string>)
    requires NUL !in line && |line| <= MAX_LINE
    ensures args == Args(line, MAX_ARGS - 1)
    ensures |args| == if |WordsOf(line)| < 15 then |WordsOf(line)| else 15
  {
    ArgsAreWords(line, MAX_ARGS - 1);
    hide WordsOf;
    var cmdLine := new char[MAX_LINE + 1];
    Strncpy(cmdLine, line, MAX_LINE);
    cmdLine[MAX_LINE] := NUL;
    assert cmdLine[..|line|] == line && cmdLine[|line|] == NUL;
    CStrIs(cmdLine[..], |line|);
    var argv := new int[MAX_ARGS];
    var argc := ParseArguments(cmdLine, argv, MAX_ARGS);
    args := ReadArguments(cmdLine, argv, argc, Args(line, MAX_ARGS - 1));
  }

  method ReadArguments(cmdLine: array<char>, argv: array<int>, argc: nat,
                       ghost words: seq<string>) returns (args: seq<string>)
    requires argc == |words| <= argv.Length
    requires forall k :: 0 <= k < argc ==>
               0 <= argv[k] <= cmdLine.Length && Terminated(cmdLine[argv[k]..]) && CStr(cmdLine[argv[k]..]) == words[k]
    ensures args == words
  {
    args := [];
    var k := 0;
    while k < argc
      invariant k <= argc && args == words[..k]
    {
      var word := Text(cmdLine, argv[k]);
      args := args + [word];
      k := k + 1;
    }
  }

  // ---- The loop -----------------------------------------------------------------------

  lemma PrintedTwice(p: Page, s: string, t: string)
    requires IsWindow(p) && Bytes(s) && Bytes(t)
    ensures Bytes(s + t)
    ensures Windowed(Windowed(p, Printing(s)), Printing(t)) == Windowed(p, Printing(s + t))
  {
    hide Put, Printing;
    PrintingJoined(s, t);
    WindowedThrough(p, Printing(s), Printing(t));
  }

  /** `terminal_puts` after what was printed since `start`. */
  method Say(screen: Screen, s: string, ghost start: Page, ghost said: string)
    requires screen.Valid() && Bytes(s) && IsWindow(start) && Bytes(said)
    requires screen.Window() == Windowed(start, Printing(said))
    modifies screen, screen.vga, screen.kernel, screen.gui, screen.keyboard, screen.keyboard.buffer
    ensures screen.Valid() && screen.OnlyInterrupted()
    ensures Bytes(said + s) && screen.Window() == Windowed(start, Printing(said + s))
  {
    hide Bytes, Put, Printing, Windowed, GuiModel.Fired, HalfOf, GuiModel.KeysUntil, Keyboard.KeyboardDriver.InOrder,
         Keyboard.Codes, Keyboard.Delivered, Screen.Mirror;
    screen.Puts(s);
    PrintedTwice(start, said, s);
  }

  method SayUnknown(screen: Screen, name: string, ghost start: Page, ghost said: string)
    requires screen.Valid() && Bytes(name) && IsWindow(start) && Bytes(said)
    requires screen.Window() == Windowed(start, Printing(said))
    modifies screen, screen.vga, screen.kernel, screen.gui, screen.keyboard, screen.keyboard.buffer
    ensures screen.Valid() && screen.OnlyInterrupted()
    ensures var s := said + (UNKNOWN + name + HINT);
            Bytes(s) && screen.Window() == Windowed(start, Printing(s))
  {
    hide Bytes, Put, Printing, Windowed, GuiModel.Fired, HalfOf, GuiModel.KeysUntil, Keyboard.KeyboardDriver.InOrder,
         Keyboard.Codes, Keyboard.Delivered, Screen.Mirror;
    MessagesAreBytes();
    Say(screen, UNKNOWN, start, said);
    Say(screen, name, start, said + UNKNOWN);
    Say(screen, HINT, start, said + UNKNOWN + name);
    Regroup(said, UNKNOWN, name, HINT);
  }

  lemma Regroup(r: string, s: string, t: string, u: string)
    ensures r + s + t + u == r + (s + t + u)
    ensures r + s + t == r + (s + t)
  {
  }

  method SayReply(screen: Screen, reply: ByteText, ghost start: Page, ghost said: string)
    requires screen.Valid() && IsWindow(start) && Bytes(said)
    requires screen.Window() == Windowed(start, Printing(said))
    modifies screen, screen.vga, screen.kernel, screen.gui, screen.keyboard, screen.keyboard.buffer
    ensures screen.Valid() && screen.OnlyInterrupted()
    ensures var s := said + ("\n" + reply);
            Bytes(s) && screen.Window() == Windowed(start, Printing(s))
  {
    hide Put, Printing, Windowed, GuiModel.Fired, HalfOf, GuiModel.KeysUntil, Keyboard.KeyboardDriver.InOrder,
         Keyboard.Codes, Keyboard.Delivered, Screen.Mirror;
    NewlineIsBytes();
    Say(screen, "\n", start, said);
    Say(screen, reply, start, said + "\n");
    Regroup(said, "\n", reply, "");
  }

  method SayBlank(screen: Screen, ghost start: Page, ghost said: string)
    requires screen.Valid() && IsWindow(start) && Bytes(said)
    requires screen.Window() == Windowed(start, Printing(said))
    modifies screen, screen.vga, screen.kernel, screen.gui, screen.keyboard, screen.keyboard.buffer
    ensures screen.Valid() && screen.OnlyInterrupted()
    ensures Bytes(said + " ") && screen.Window() == Windowed(start, Printing(said + " "))
  {
    hide Put, Printing, Windowed, GuiModel.Fired, HalfOf, GuiModel.KeysUntil, Keyboard.KeyboardDriver.InOrder,
         Keyboard.Codes, Keyboard.Delivered, Screen.Mirror;
    Say(screen, " ", start, said);
  }

  /** A blank, unless it is the first word, and the word. */
  method SayWord(screen: Screen, word: string, more: bool, ghost start: Page, ghost said: string)
    requires screen.Valid() && Bytes(word) && IsWindow(start) && Bytes(said)
    requires screen.Window() == Windowed(start, Printing(said))
    modifies screen, screen.vga, screen.kernel, screen.gui, screen.keyboard, screen.keyboard.buffer
    ensures screen.Valid() && screen.OnlyInterrupted()
    ensures var s := (if more then said + " " else said) + word;
            Bytes(s) && screen.Window() == Windowed(start, Printing(s))
  {
    hide Bytes, Put, Printing, Windowed, GuiModel.Fired, HalfOf, GuiModel.KeysUntil, Keyboard.KeyboardDriver.InOrder,
         Keyboard.Codes, Keyboard.Delivered, Screen.Mirror;
    if more {
      SayBlank(screen, start, said);
    }
    Say(screen, word, start, if more then said + " " else said);
  }

  /** `echo`: the arguments after the first, joined by single blanks, on a line of their own. */
  method CmdEcho(screen: Screen, args: seq<string>)
    requires screen.Valid() && args != [] && forall w :: w in args ==> Bytes(w)
    modifies screen, screen.vga, screen.kernel, screen.gui, screen.keyboard, screen.keyboard.buffer
    ensures screen.Valid() && screen.OnlyInterrupted()
    ensures var s := "\n" + Joined(args[1..]) + "\n";
            Bytes(s) && screen.Window() == Windowed(old(screen.Window()), Printing(s))
  {
    hide Bytes, Put, Printing, Windowed, Joined, GuiModel.Fired, HalfOf, GuiModel.KeysUntil,
         Keyboard.KeyboardDriver.InOrder, Keyboard.Codes, Keyboard.Delivered, Screen.Mirror;
    ghost var (start, words) := (screen.Window(), args[1..]);
    NewlineIsBytes();
    screen.Puts("\n");
    JoinedNothing(words);
    for i := 1 to |args|
      invariant screen.Valid() && screen.OnlyInterrupted()
      invariant Bytes("\n" + Joined(words[..i - 1]))
      invariant screen.Window() == Windowed(start, Printing("\n" + Joined(words[..i - 1])))
    {
      JoinedGrows(words, i - 1);
      assert args[i] in args;
      ghost var said := "\n" + Joined(words[..i - 1]);
      SayWord(screen, args[i], i > 1, start, said);
      Regroup("\n", Joined(words[..i - 1]), " ", args[i]);
      if i == 1 {
        JoinedNothing(words);
      }
    }
    assert words[..|words|] == words;
    Say(screen, "\n", start, "\n" + Joined(words));
  }

  lemma JoinedNothing(words: seq<string>)
    ensures "\n" + Joined(words[..0]) == "\n"
  {
  }

  /** Parses a copy of the line and runs the command it names. */
  method ProcessCommand(screen: Screen, names: seq<string>, reply: (nat, seq<string>) -> ByteText,
                        command: string, serial: nat, ghost start: Page, ghost said: string)
    requires screen.Valid() && IsLine(command) && forall n :: n in names ==> NUL !in n
    requires IsWindow(start) && Bytes(said) && screen.Window() == Windowed(start, Printing(said))
    modifies screen, screen.vga, screen.kernel, screen.gui, screen.keyboard, screen.keyboard.buffer
    ensures screen.Valid() && screen.OnlyInterrupted()
    ensures var s := said + Answer(names, reply, serial, command);
            Bytes(s) && screen.Window() == Windowed(start, Printing(s))
  {
    hide Bytes, Put, Printing, Windowed, Args, GuiModel.Fired, HalfOf, GuiModel.KeysUntil,
         Keyboard.KeyboardDriver.InOrder, Keyboard.Codes, Keyboard.Delivered, Screen.Mirror;
    LineHasBytes(command);
    var args := Parse(command);
    if |args| == 0 {
      assert said + "" == said;
      return;
    }
    assert args[0] in args;
    var found := Lookup(names, args[0]);
    if found {
      SayReply(screen, reply(serial, args), start, said);
    } else {
      SayUnknown(screen, args[0], start, said);
    }
  }

  /** What a key makes the shell print. */
  function Printed(names: seq<string>, reply: (nat, seq<string>) -> ByteText, e: Editor, c: char): (s: string)
    requires IsLine(e.text)
    ensures Bytes(s)
  {
    if IsEnter(c) then
      AnswerIsBytes(names, reply, |e.submitted|, e.text);
      NewlineIsBytes();
      PromptIsBytes();
      BytesJoined("\n", Answer(names, reply, |e.submitted|, e.text));
      BytesJoined("\n" + Answer(names, reply, |e.submitted|, e.text), PROMPT);
      "\n" + Answer(names, reply, |e.submitted|, e.text) + PROMPT
    else
      EchoIsBytes(e.text, c);
      Echo(e.text, c)
  }

  /** Enter on a line of blanks gives a new prompt; on one that names a command, its reply before that; and otherwise
      the
      name that is not known, with a hint. */
  lemma EnterPrints(names: seq<string>, reply: (nat, seq<string>) -> ByteText, e: Editor)
    requires IsLine(e.text) && |WordsOf(e.text)| < 15
    ensures var (words, printed) := (WordsOf(e.text), Printed(names, reply, e, '\n'));
            && (words == [] ==> printed == "\n" + "skullos> ")
            && (words != [] && words[0] in names
                ==> printed == "\n" + ("\n" + reply(|e.submitted|, words)) + "skullos> ")
            && (words != [] && words[0] !in names ==>
                  printed == "\n" + ("\nCommand not found: " + words[0]
                             + ("\nType 'help' for " + ("a list of available " + "commands.\n"))) + "skullos> ")
  {
    hide WordsOf, Args, IsLine, Bytes;
    ArgsAreWords(e.text, MAX_ARGS - 1);
    assert "\n" + "" == "\n";
  }

  lemma {:induction false} SessionIsLine(e: Editor, keys: seq<char>)
    requires IsLine(e.text)
    ensures IsLine(Session(e, keys).text)
  {
    if keys != [] {
      SessionIsLine(e, keys[..|keys| - 1]);
    }
  }

  /** All that is printed while `keys` come. */
  function Transcript(names: seq<string>, reply: (nat, seq<string>) -> ByteText, e: Editor, keys: seq<char>): seq<Event>
    requires IsLine(e.text)
  {
    if keys == [] then [] else
      var front := keys[..|keys| - 1];
      SessionIsLine(e, front);
      Transcript(names, reply, e, front) + Printing(Printed(names, reply, Session(e, front), keys[|keys| - 1]))
  }

  /** The character of `code` under the shift and caps lock of a history. */
  function Spelled(code: byte, h: Keyboard.History): char {
    Keyboard.Ascii(code, Keyboard.ShiftOn(h), Keyboard.Toggled(h, Keyboard.KEY_CAPS))
  }

  /** `c` is the character of the code taken last, the `n`-th of all. */
  predicate SpellsAt(h: Keyboard.History, n: nat, c: char) {
    |Keyboard.Delivered(h)| == n + 1 && c == Spelled(Keyboard.Delivered(h)[n], h)
  }

  /** `keys` are the characters of the codes taken from the `first` on: each under the shift and caps lock that the
      first `moments[k]` events leave, which is after that code was taken and before the next one was. */
  ghost predicate Spells(h: Keyboard.History, first: nat, keys: seq<char>, moments: seq<nat>) {
    && |Keyboard.Delivered(h)| == first + |keys| && |moments| == |keys|
    && forall k :: 0 <= k < |keys| ==> moments[k] <= |h| && SpellsAt(h[..moments[k]], first + k, keys[k])
  }

  lemma SpellsNothing(h: Keyboard.History)
    ensures Spells(h, |Keyboard.Delivered(h)|, [], [])
  {
  }

  lemma SpellsMore(h: Keyboard.History, first: nat, keys: seq<char>, moments: seq<nat>, now: Keyboard.History, c: char,
                   moment: nat)
    requires Spells(h, first, keys, moments) && h <= now && moment <= |now|
    requires |Keyboard.Delivered(now)| == |Keyboard.Delivered(h)| + 1
    requires SpellsAt(now[..moment], |Keyboard.Delivered(h)|, c)
    ensures Spells(now, first, keys + [c], moments + [moment])
  {
    hide Keyboard.Delivered, SpellsAt;
    forall k | 0 <= k < |keys| ensures now[..moments[k]] == h[..moments[k]] {
    }
  }

  lemma SaidNothing(names: seq<string>, reply: (nat, seq<string>) -> ByteText, e: Editor, p: Page)
    requires IsLine(e.text) && IsWindow(p)
    ensures Windowed(p, Transcript(names, reply, e, [])) == p && Session(e, []) == e
  {
  }

  lemma SaidMore(names: seq<string>, reply: (nat, seq<string>) -> ByteText, e: Editor, p: Page, keys: seq<char>,
                 c: char)
    requires IsLine(e.text) && IsWindow(p)
    ensures IsLine(Session(e, keys).text) && Session(e, keys + [c]) == Pressed(Session(e, keys), c)
    ensures Windowed(p, Transcript(names, reply, e, keys + [c]))
            == Windowed(Windowed(p, Transcript(names, reply, e, keys)),
                        Printing(Printed(names, reply, Session(e, keys), c)))
  {
    hide Put, Printing, Printed;
    SessionIsLine(e, keys);
    assert (keys + [c])[..|keys|] == keys;
    WindowedThrough(p, Transcript(names, reply, e, keys), Printing(Printed(names, reply, Session(e, keys), c)));
  }

  // ---- What the screen shows of the line -------------------------------------------------

  lemma {:induction false} TranscriptJoined(names: seq<string>, reply: (nat, seq<string>) -> ByteText, e: Editor,
                                            p: Page, keys: seq<char>, more: seq<char>)
    requires IsLine(e.text) && IsWindow(p)
    ensures IsLine(Session(e, keys).text) && Session(e, keys + more) == Session(Session(e, keys), more)
    ensures Windowed(p, Transcript(names, reply, e, keys + more))
            == Windowed(Windowed(p, Transcript(names, reply, e, keys)),
                        Transcript(names, reply, Session(e, keys), more))
    decreases |more|
  {
    hide Put, Printing, Printed, Pressed, Windowed, Transcript, Session;
    SessionIsLine(e, keys);
    SessionThrough(e, keys, more);
    var (mid, q) := (Session(e, keys), Windowed(p, Transcript(names, reply, e, keys)));
    if more == [] {
      assert keys + more == keys;
      SaidNothing(names, reply, mid, q);
    } else {
      var (front, c) := (more[..|more| - 1], more[|more| - 1]);
      assert keys + more == keys + front + [c] && more == front + [c];
      TranscriptJoined(names, reply, e, p, keys, front);
      SaidMore(names, reply, e, p, keys + front, c);
      SaidMore(names, reply, mid, q, front, c);
    }
  }

  /** Without an Enter, the window that the loop prints is the one of the line editor. */
  lemma {:induction false} TranscriptIsTyping(names: seq<string>, reply: (nat, seq<string>) -> ByteText, e: Editor,
                                              p: Page, keys: seq<char>)
    requires e.text == "" && NoEnter(keys) && IsWindow(p)
    ensures Windowed(p, Transcript(names, reply, e, keys)) == Typing(p, keys)
  {
    if keys == [] {
      SaidNothing(names, reply, e, p);
    } else {
      hide Put, Printing, Windowed, Transcript, Echo;
      var (front, c) := (keys[..|keys| - 1], keys[|keys| - 1]);
      assert keys == front + [c] && c in keys;
      assert forall d :: d in front ==> d in keys;
      TranscriptIsTyping(names, reply, e, p, front);
      SessionLine(e, front);
      SaidMore(names, reply, e, p, front, c);
      EchoIsBytes(Line(front), c);
    }
  }

  /** The output ends a line, or there is none. */
  predicate EndsLine(s: string) {
    s == "" || s[|s| - 1] == '\n'
  }

  /** After Enter, on a screen that was cleared once: the prompt is shown with an empty line, if the command ended its
      last line. */
  lemma PromptAfterEnter(names: seq<string>, reply: (nat, seq<string>) -> ByteText, e: Editor, p: Page, c: char)
    requires IsLine(e.text) && IsEnter(c) && BlankBelow(p)
    requires EndsLine(Answer(names, reply, |e.submitted|, e.text))
    ensures Shows(Windowed(p, Printing(Printed(names, reply, e, c))), "")
  {
    hide Put, Printing, Windowed, Answer, Shows, Bytes;
    var answer := Answer(names, reply, |e.submitted|, e.text);
    AnswerIsBytes(names, reply, |e.submitted|, e.text);
    NewlineIsBytes();
    PromptIsBytes();
    BytesJoined("\n", answer);
    var said := "\n" + answer;
    PrintedTwice(p, said, PROMPT);
    EndsInNewline(answer);
    PrintLast(p, said);
    PromptIsShown(p, Printing(said[..|said| - 1]));
  }

  lemma EndsInNewline(s: string)
    requires EndsLine(s)
    ensures ("\n" + s)[|s|] == '\n' && ('\n' as nat) == NEWLINE
  {
  }

  /** After any keys, an Enter, and more keys without one: the row shows the prompt and the line exactly if that line
      never reached 31 characters. */
  lemma LineShownIff(names: seq<string>, reply: (nat, seq<string>) -> ByteText, e: Editor, p: Page,
                     before: seq<char>, first: char, keys: seq<char>)
    requires IsLine(e.text) && BlankBelow(p) && IsEnter(first) && NoEnter(keys)
    requires IsLine(Session(e, before).text)
    requires EndsLine(Answer(names, reply, |Session(e, before).submitted|, Session(e, before).text))
    ensures Session(e, before + [first] + keys).text == Line(keys)
    ensures Shows(Windowed(p, Transcript(names, reply, e, before + [first] + keys)), Line(keys)) <==> NeverLong(keys)
  {
    hide Put, Printing, Printed, Windowed, Transcript, Shows, Answer;
    var (mid, q) := (Session(e, before), Windowed(p, Transcript(names, reply, e, before)));
    OutputKeepsBlank(p, Transcript(names, reply, e, before));
    SaidMore(names, reply, e, p, before, first);
    PromptAfterEnter(names, reply, mid, q, first);
    TranscriptJoined(names, reply, e, p, before + [first], keys);
    var (start, shown) := (Session(e, before + [first]), Windowed(p, Transcript(names, reply, e, before + [first])));
    TranscriptIsTyping(names, reply, start, shown, keys);
    SessionLine(start, keys);
    ShownIff(shown, keys);
  }

  /** If a line was being typed at a prompt, the row shows the prompt and the line exactly if it never reached 31
      characters. */
  ghost predicate ShowsLine(e: Editor, p: Page, keys: seq<char>, q: Page) {
    e.text == "" && NoEnter(keys) && Shows(p, "") ==> (Shows(q, Line(keys)) <==> NeverLong(keys))
  }

  lemma RunShowsLine(names: seq<string>, reply: (nat, seq<string>) -> ByteText, e: Editor, p: Page, keys: seq<char>)
    requires IsLine(e.text) && IsWindow(p)
    ensures ShowsLine(e, p, keys, Windowed(p, Transcript(names, reply, e, keys)))
  {
    hide Shows, Transcript, Windowed;
    if e.text == "" && NoEnter(keys) && Shows(p, "") {
      TranscriptIsTyping(names, reply, e, p, keys);
      ShownIff(p, keys);
    }
  }

  // ---- Serving keys ----------------------------------------------------------------------

  method RunAndPrompt(screen: Screen, names: seq<string>, reply: (nat, seq<string>) -> ByteText,
                      command: string, serial: nat, prompt: string, ghost start: Page, ghost said: string)
    requires screen.Valid() && IsLine(command) && Bytes(prompt) && forall n :: n in names ==> NUL !in n
    requires IsWindow(start) && Bytes(said) && screen.Window() == Windowed(start, Printing(said))
    modifies screen, screen.vga, screen.kernel, screen.gui, screen.keyboard, screen.keyboard.buffer
    ensures screen.Valid() && screen.OnlyInterrupted()
    ensures var s := said + Answer(names, reply, serial, command) + prompt;
            Bytes(s) && screen.Window() == Windowed(start, Printing(s))
  {
    hide Bytes, Put, Printing, Windowed, Answer, GuiModel.Fired, HalfOf, GuiModel.KeysUntil,
         Keyboard.KeyboardDriver.InOrder, Keyboard.Codes, Keyboard.Delivered, Screen.Mirror;
    ProcessCommand(screen, names, reply, command, serial, start, said);
    Say(screen, prompt, start, said + Answer(names, reply, serial, command));
  }

  /** A newline, what the command prints, and the next prompt. */
  method RunLine(screen: Screen, names: seq<string>, reply: (nat, seq<string>) -> ByteText, command: string,
                 serial: nat)
    requires screen.Valid() && IsLine(command) && forall n :: n in names ==> NUL !in n
    modifies screen, screen.vga, screen.kernel, screen.gui, screen.keyboard, screen.keyboard.buffer
    ensures screen.Valid() && screen.OnlyInterrupted()
    ensures var s := "\n" + Answer(names, reply, serial, command) + PROMPT;
            Bytes(s) && screen.Window() == Windowed(old(screen.Window()), Printing(s))
  {
    hide Bytes, Put, Printing, Windowed, Answer, GuiModel.Fired, HalfOf, GuiModel.KeysUntil,
         Keyboard.KeyboardDriver.InOrder, Keyboard.Codes, Keyboard.Delivered, Screen.Mirror;
    ghost var start := screen.Window();
    NewlineIsBytes();
    PromptIsBytes();
    screen.Puts("\n");
    RunAndPrompt(screen, names, reply, command, serial, PROMPT, start, "\n");
  }

  lemma PrintNothing(p: Page)
    requires IsWindow(p)
    ensures Bytes("") && Windowed(p, Printing("")) == p
  {
    assert Printing("") == [];
  }

  class ShellLoop {
    const screen: Screen
    const buffer: array<char>
    /** The registered commands, and what the handler of a command prints: which command it is, and its arguments. */
    const names: seq<string>
    const reply: (nat, seq<string>) -> ByteText

    var length: nat
    /** The commands submitted. */
    var submitted: seq<string>

    constructor (screen: Screen, names: seq<string>, reply: (nat, seq<string>) -> ByteText)
      requires screen.Valid() && screen.current == screen.kernel
      requires forall n :: n in names ==> NUL !in n
      ensures Ready() && State() == Editor("", []) && fresh(buffer)
      ensures this.screen == screen && this.names == names && this.reply == reply
    {
      this.screen, this.names, this.reply := screen, names, reply;
      buffer := new char[MAX_LINE + 1](_ => NUL);
      length := 0;
      submitted := [];
    }

    /** The line and the screen. */
    ghost predicate Ready()
      reads this, buffer, screen, screen.vga, screen.kernel, screen.gui, screen.keyboard, screen.keyboard.buffer
    {
      && buffer.Length == MAX_LINE + 1 && length <= MAX_LINE && IsLine(buffer[..length])
      && screen.Valid() && screen.current == screen.kernel
      && forall n :: n in names ==> NUL !in n
    }

    /** Since the state was `e` and the window `p`, exactly `keys` have been served. */
    ghost predicate Served(e: Editor, p: Page, keys: seq<char>)
      reads this, buffer, screen, screen.current
    {
      && IsLine(e.text) && IsWindow(p) && length <= buffer.Length
      && State() == Session(e, keys)
      && screen.Window() == Windowed(p, Transcript(names, reply, e, keys))
    }

    ghost function State(): Editor
      requires length <= buffer.Length
      reads this, buffer
    {
      Editor(buffer[..length], submitted)
    }

    method ClearBuffer()
      requires buffer.Length == MAX_LINE + 1
      modifies buffer
      ensures forall i :: 0 <= i < buffer.Length ==> buffer[i] == NUL
    {
      var i := 0;
      while i < buffer.Length
        invariant i <= buffer.Length && forall j :: 0 <= j < i ==> buffer[j] == NUL
      {
        buffer[i] := NUL;
        i := i + 1;
      }
    }

    /** Ends the line, and empties the buffer for the next one. */
    method TakeLine() returns (command: string)
      requires buffer.Length == MAX_LINE + 1 && length <= MAX_LINE && IsLine(buffer[..length])
      modifies this`length, buffer
      ensures command == old(buffer[..length]) && length == 0
    {
      ghost var line := buffer[..length];
      LineHasBytes(line);
      buffer[length] := NUL;
      assert buffer[..length] == line;
      CStrIs(buffer[..], length);
      assert buffer[0..] == buffer[..];
      command := Text(buffer, 0);
      length := 0;
      ClearBuffer();
    }

    method HandleKey(c: char)
      requires Ready()
      modifies this`length, this`submitted, buffer, screen, screen.vga, screen.kernel, screen.gui
      modifies screen.keyboard, screen.keyboard.buffer
      ensures Ready() && screen.OnlyInterrupted()
      ensures State() == Pressed(old(State()), c)
      ensures screen.Window() == Windowed(old(screen.Window()), Printing(Printed(names, reply, old(State()), c)))
    {
      hide Answer, Echo, Edited, Bytes, Put, Printing, Windowed, Args, GuiModel.Fired, HalfOf, GuiModel.KeysUntil,
           Keyboard.KeyboardDriver.InOrder, Keyboard.Codes, Keyboard.Delivered, Screen.Mirror;
      if c == '\r' || c == '\n' {
        var command := TakeLine();
        RunLine(screen, names, reply, command, |submitted|);
        submitted := submitted + [command];
      } else {
        EditLine(c);
      }
    }

    method Erase()
      requires buffer.Length == MAX_LINE + 1 && 0 < length <= MAX_LINE && IsLine(buffer[..length])
      modifies this`length, buffer
      ensures length == old(length) - 1 && IsLine(buffer[..length])
      ensures buffer[..length] == old(buffer[..length - 1])
    {
      ghost var line := buffer[..length];
      length := length - 1;
      buffer[length] := NUL;
      assert buffer[..length] == line[..length];
      assert forall c :: c in line[..length] ==> c in line;
    }

    method Append(c: char)
      requires buffer.Length == MAX_LINE + 1 && length < MAX_LINE && IsLine(buffer[..length]) && IsText(c)
      modifies this`length, buffer
      ensures length == old(length) + 1 <= MAX_LINE && IsLine(buffer[..length])
      ensures buffer[..length] == old(buffer[..length]) + [c]
    {
      ghost var line := buffer[..length];
      buffer[length] := c;
      length := length + 1;
      assert buffer[..length] == line + [c];
    }

    method EraseKey()
      requires Ready() && 0 < length
      modifies this`length, buffer, screen, screen.vga, screen.kernel, screen.gui, screen.keyboard
      modifies screen.keyboard.buffer
      ensures Ready() && screen.OnlyInterrupted() && submitted == old(submitted)
      ensures buffer[..length] == old(buffer[..length - 1])
      ensures Bytes(ERASURE) && screen.Window() == Windowed(old(screen.Window()), Printing(ERASURE))
    {
      hide Put, Printing, Windowed, IsLine, GuiModel.Fired, HalfOf, GuiModel.KeysUntil, Keyboard.KeyboardDriver.InOrder,
           Keyboard.Codes, Keyboard.Delivered, Screen.Mirror;
      Erase();
      screen.Puts(ERASURE);
    }

    method TypeKey(c: char)
      requires Ready() && length < MAX_LINE && IsText(c)
      modifies this`length, buffer, screen, screen.vga, screen.kernel, screen.gui, screen.keyboard
      modifies screen.keyboard.buffer
      ensures Ready() && screen.OnlyInterrupted() && submitted == old(submitted)
      ensures buffer[..length] == old(buffer[..length]) + [c]
      ensures Bytes([c]) && screen.Window() == Windowed(old(screen.Window()), Printing([c]))
    {
      hide Put, Printing, Windowed, IsLine, GuiModel.Fired, HalfOf, GuiModel.KeysUntil, Keyboard.KeyboardDriver.InOrder,
           Keyboard.Codes, Keyboard.Delivered, Screen.Mirror;
      PrintSingle(screen.Window(), c);
      Append(c);
      screen.Putchar(c as nat);
    }

    method EditLine(c: char)
      requires Ready() && !IsEnter(c)
      modifies this`length, buffer, screen, screen.vga, screen.kernel, screen.gui, screen.keyboard
      modifies screen.keyboard.buffer
      ensures Ready() && screen.OnlyInterrupted()
      ensures State() == Pressed(old(State()), c)
      ensures screen.Window() == Windowed(old(screen.Window()), Printing(Printed(names, reply, old(State()), c)))
    {
      hide Bytes, Put, Printing, Windowed, IsLine, GuiModel.Fired, HalfOf, GuiModel.KeysUntil,
           Keyboard.KeyboardDriver.InOrder, Keyboard.Codes, Keyboard.Delivered, Screen.Mirror, Screen.WindowOf, Answer;
      if c == 8 as char || c == 127 as char {
        if length > 0 {
          EraseKey();
        } else {
          PrintNothing(screen.Window());
        }
      } else if length < MAX_LINE && 32 <= c as nat <= 126 {
        TypeKey(c);
      } else {
        PrintNothing(screen.Window());
      }
    }

    /** One turn of the loop: waits for a key, and handles it. */
    method ServeKey(ghost due: nat, ghost e: Editor, ghost start: Page, ghost keys: seq<char>) returns (ghost c: char,
          ghost moment: nat)
      requires Ready() && screen.enabled && Served(e, start, keys)
      requires screen.point <= due && KeyDue(screen.arrivals, due)
      modifies this`length, this`submitted, buffer
      modifies screen, screen.vga, screen.kernel, screen.gui, screen.keyboard, screen.keyboard.buffer
      ensures Ready() && screen.Undisturbed() && Served(e, start, keys + [c])
      ensures var (before, now) := (Keyboard.Delivered(old(screen.keyboard.history)), screen.keyboard.history);
              && before <= Keyboard.Delivered(now) && |Keyboard.Delivered(now)| == |before| + 1
              && moment <= |now| && SpellsAt(now[..moment], |before|, c)
    {
      hide Put, Printing, Windowed, Printed, IsLine, KeyDue, GuiModel.Fired, HalfOf, GuiModel.KeysUntil,
           Keyboard.KeyboardDriver.InOrder, Keyboard.Codes, Keyboard.Delivered, Screen.Mirror;
      var key, code := GetChar(screen, due);
      ghost var h := screen.keyboard.history;
      moment := |h|;
      HandleKey(key);
      assert screen.keyboard.history[..moment] == h;
      SaidMore(names, reply, e, start, keys, key);
      c := key;
    }

    /** What `Run` promises of the keyboard: the keys are the characters of the codes taken, and as long as no buffered
        code found 127 others waiting, the codes taken are the first buffered ones of the schedule, in order. */
    ghost predicate Typed(first: nat, keys: seq<char>, moments: seq<nat>)
      reads screen, screen.keyboard
    {
      var h := screen.keyboard.history;
      && Spells(h, first, keys, moments)
      && (Keyboard.NeverFull(h) ==>
            Keyboard.Delivered(h) <= Keyboard.BufferedOf(GuiModel.KeysUntil(screen.arrivals, screen.point)))
    }

    /** The loop, for the next `n` keys of a user who keeps typing. */
    method Run(n: nat, ghost next: nat -> nat) returns (ghost keys: seq<char>, ghost moments: seq<nat>)
      requires Ready() && screen.enabled
      requires forall p: nat :: p <= next(p) && KeyDue(screen.arrivals, next(p))
      modifies this`length, this`submitted, buffer
      modifies screen, screen.vga, screen.kernel, screen.gui, screen.keyboard, screen.keyboard.buffer
      ensures Ready() && |keys| == n && old(screen.keyboard.history) <= screen.keyboard.history
      ensures Typed(|Keyboard.Delivered(old(screen.keyboard.history))|, keys, moments)
      ensures Served(old(State()), old(screen.Window()), keys)
      ensures ShowsLine(old(State()), old(screen.Window()), keys, screen.Window())
      ensures screen.TickedSince(old(screen.Side()), old(screen.point))
    {
      hide ShowsLine, Put, Printing, Windowed, Printed, IsLine, Transcript, Spells, SpellsAt, KeyDue, GuiModel.Fired,
           HalfOf, GuiModel.KeysUntil, Keyboard.KeyboardDriver.InOrder, Keyboard.Codes, Keyboard.Delivered,
           Keyboard.NeverFull, Screen.Mirror;
      keys, moments := [], [];
      ghost var (e, start, keyboard) := (State(), screen.Window(), screen.keyboard);
      ghost var (first, from) := (|Keyboard.Delivered(keyboard.history)|, screen.point);
      SaidNothing(names, reply, e, start);
      SpellsNothing(keyboard.history);
      for i := 0 to n
        invariant Ready() && screen.enabled && screen.Undisturbed() && |keys| == i
        invariant Spells(keyboard.history, first, keys, moments)
        invariant Served(e, start, keys)
      {
        ghost var h := keyboard.history;
        var c, moment := ServeKey(next(screen.point), e, start, keys);
        SpellsMore(h, first, keys, moments, keyboard.history, c, moment);
        keys, moments := keys + [c], moments + [moment];
      }
      GuiModel.FiredThrough(screen.origin, screen.arrivals, screen.base, from, screen.point);
      RunShowsLine(names, reply, e, start, keys);
      screen.KeysArriveIff();
    }
  }
}
