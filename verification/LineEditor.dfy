/**
 The line editor as a function of the keys, and what the window shows of it.
 */
module LineEditor {
  import opened ConsoleModel

  const PROMPT: string := "skullos> "

  /** The command buffer holds 80 characters with its terminator. */
  const MAX_LINE: nat := 79

  predicate IsEnter(c: char) {
    c == '\r' || c == '\n'
  }

  predicate IsErase(c: char) {
    c as nat == BACKSPACE || c as nat == 127
  }

  predicate IsText(c: char) {
    BLANK <= c as nat <= 126
  }

  /** The line after a key. */
  function Edited(text: string, c: char): string {
    if IsErase(c) then (if text == "" then "" else text[..|text| - 1])
    else if |text| < MAX_LINE && IsText(c) then text + [c]
    else text
  }

  /** What erases a character on the screen. */
  const ERASURE: string := [BACKSPACE as char, ' ', BACKSPACE as char]

  /** What a key prints. */
  function Echo(text: string, c: char): string {
    if IsErase(c) then (if text == "" then "" else ERASURE)
    else if |text| < MAX_LINE && IsText(c) then [c]
    else ""
  }

  /** The line being edited and the commands submitted so far. */
  datatype Editor = Editor(text: string, submitted: seq<string>)

  function Pressed(e: Editor, c: char): Editor {
    if IsEnter(c) then Editor("", e.submitted + [e.text]) else e.(text := Edited(e.text, c))
  }

  function Session(e: Editor, keys: seq<char>): Editor {
    if keys == [] then e else Pressed(Session(e, keys[..|keys| - 1]), keys[|keys| - 1])
  }

  /** The type and backspace fold of keys without Enter. */
  function Line(keys: seq<char>): string {
    if keys == [] then "" else Edited(Line(keys[..|keys| - 1]), keys[|keys| - 1])
  }

  predicate NoEnter(keys: seq<char>) {
    forall c :: c in keys ==> !IsEnter(c)
  }

  lemma {:induction false} SessionLine(e: Editor, keys: seq<char>)
    requires e.text == "" && NoEnter(keys)
    ensures Session(e, keys) == Editor(Line(keys), e.submitted)
  {
    if keys != [] {
      var front := keys[..|keys| - 1];
      assert forall c :: c in front ==> c in keys;
      SessionLine(e, front);
      assert keys[|keys| - 1] in keys;
    }
  }

  lemma {:induction false} SessionThrough(e: Editor, keys: seq<char>, more: seq<char>)
    ensures Session(e, keys + more) == Session(Session(e, keys), more)
    decreases |more|
  {
    if more == [] {
      assert keys + more == keys;
    } else {
      var front := more[..|more| - 1];
      assert (keys + more)[..|keys + more| - 1] == keys + front;
      SessionThrough(e, keys, front);
    }
  }

  /** What Enter submits is the fold of the keys since the last Enter. */
  lemma SubmittedIsLine(e: Editor, before: seq<char>, keys: seq<char>, first: char, last: char)
    requires IsEnter(first) && NoEnter(keys) && IsEnter(last)
    ensures var start := Session(e, before + [first]);
            Session(e, before + [first] + keys + [last]) == Editor("", start.submitted + [Line(keys)])
  {
    var start := Session(e, before + [first]);
    assert (before + [first])[..|before|] == before;
    SessionLine(start, keys);
    SessionThrough(e, before + [first], keys);
    var all := before + [first] + keys + [last];
    assert all[..|all| - 1] == before + [first] + keys;
  }

  predicate IsLine(text: string) {
    |text| <= MAX_LINE && forall c :: c in text ==> IsText(c)
  }

  /** A line is at most 79 printable characters long. */
  lemma {:induction false} LineIsShort(keys: seq<char>)
    ensures IsLine(Line(keys))
  {
    if keys != [] {
      LineIsShort(keys[..|keys| - 1]);
    }
  }

  /** Printable keys are kept, the first 79 of them; an erasing key takes the last one back. */
  lemma {:induction false} LineKeeps(keys: seq<char>)
    requires forall c :: c in keys ==> 32 <= c as nat <= 126
    ensures Line(keys) == if |keys| <= 79 then keys else keys[..79]
    ensures forall e :: e as nat == 8 || e as nat == 127 ==>
              Line(keys + [e]) == if keys == [] then "" else Line(keys)[..|Line(keys)| - 1]
  {
    hide Edited;
    if keys != [] {
      var (front, c) := (keys[..|keys| - 1], keys[|keys| - 1]);
      assert c in keys;
      assert forall d :: d in front ==> d in keys;
      LineKeeps(front);
      KeptKey(front, c);
      assert front + [c] == keys;
    }
    forall e: char | e as nat == 8 || e as nat == 127
      ensures Line(keys + [e]) == if keys == [] then "" else Line(keys)[..|Line(keys)| - 1]
    {
      assert (keys + [e])[..|keys|] == keys;
      ErasedKey(Line(keys), e);
    }
  }

  lemma KeptKey(front: string, c: char)
    requires 32 <= c as nat <= 126
    ensures var (line, keys) := (if |front| <= 79 then front else front[..79], front + [c]);
            Edited(line, c) == if |keys| <= 79 then keys else keys[..79]
  {
  }

  lemma ErasedKey(line: string, e: char)
    requires e as nat == 8 || e as nat == 127
    ensures Edited(line, e) == if line == "" then "" else line[..|line| - 1]
  {
  }

  // ---- The display --------------------------------------------------------------

  predicate RowShows(row: Row, text: string) {
    && |text| <= |row| == WIDTH
    && forall i :: 0 <= i < WIDTH ==> row[i] % 0x100 == if i < |text| then text[i] as nat else BLANK
  }

  /** The cursor's row holds `text` and blanks, and the cursor stands behind the text. */
  ghost predicate At(p: Page, text: string) {
    IsWindow(p) && p.x == |text| < WIDTH && RowShows(p.rows[p.y], text)
  }

  ghost predicate Shows(p: Page, text: string) {
    At(p, PROMPT + text)
  }

  lemma PutText(p: Page, text: string, c: char)
    requires At(p, text) && IsText(c) && |text| + 1 < WIDTH
    ensures At(Put(p, c as nat), text + [c])
  {
  }

  lemma PutErase(p: Page, text: string)
    requires At(p, text) && text != ""
    ensures At(Put(p, BACKSPACE), text[..|text| - 1])
  {
  }

  lemma {:induction false} TypeText(p: Page, text: string, s: string)
    requires IsWindow(p) && At(p, text) && (forall c :: c in s ==> IsText(c)) && |text| + |s| < WIDTH
    ensures Bytes(s) && At(Windowed(p, Printing(s)), text + s)
    decreases |s|
  {
    hide At, Put, Printing;
    if s == "" {
      assert text + s == text;
      assert Printing(s) == [];
    } else {
      var (front, c) := (s[..|s| - 1], s[|s| - 1]);
      assert forall d :: d in front ==> d in s;
      assert c in s;
      TypeText(p, text, front);
      PrintLast(p, s);
      PutText(Windowed(p, Printing(front)), text + front, c);
      assert text + front + [c] == text + s;
    }
  }

  // ---- Lines of fewer than 31 characters are shown, others are not ---------------

  /** Room for a line beside the prompt. */
  const SHOWN: nat := WIDTH - |PROMPT|

  lemma EchoIsBytes(text: string, c: char)
    ensures Bytes(Echo(text, c))
  {
  }

  /** The three characters of an erasure. */
  lemma EraseSteps(p: Page)
    requires IsWindow(p)
    ensures var s := [BACKSPACE as char, ' ', BACKSPACE as char];
            Bytes(s) && Windowed(p, Printing(s)) == Put(Put(Put(p, BACKSPACE), BLANK), BACKSPACE)
  {
    hide Put, Windowed, Printing;
    var b := BACKSPACE as char;
    PrintSingle(p, b);
    PrintAppend(p, [b], ' ');
    PrintAppend(p, [b] + [' '], b);
    assert [b] + [' '] + [b] == [b, ' ', b];
  }

  lemma EraseShown(p: Page, text: string)
    requires IsWindow(p) && At(p, text) && text != ""
    ensures At(Put(Put(Put(p, BACKSPACE), BLANK), BACKSPACE), text[..|text| - 1])
  {
    hide At;
    var less := text[..|text| - 1];
    PutErase(p, text);
    var q := Put(p, BACKSPACE);
    PutBlank(q, less);
    PutErase(Put(q, BLANK), less + [' ']);
    assert (less + [' '])[..|less|] == less;
  }

  lemma PutBlank(p: Page, text: string)
    requires At(p, text) && |text| + 1 < WIDTH
    ensures At(Put(p, BLANK), text + [' '])
  {
    PutText(p, text, ' ');
  }

  /** One key of a line that stays short. */
  lemma KeyShown(p: Page, text: string, c: char)
    requires IsWindow(p) && Shows(p, text) && !IsEnter(c) && |Edited(text, c)| < SHOWN
    ensures Bytes(Echo(text, c)) && Shows(Windowed(p, Printing(Echo(text, c))), Edited(text, c))
  {
    hide At, Put, Printing;
    EchoIsBytes(text, c);
    if IsErase(c) {
      if text != "" {
        EraseSteps(p);
        EraseShown(p, PROMPT + text);
        assert (PROMPT + text)[..|PROMPT + text| - 1] == PROMPT + text[..|text| - 1];
      }
    } else if |text| < MAX_LINE && IsText(c) {
      PrintSingle(p, c);
      PutText(p, PROMPT + text, c);
      assert PROMPT + text + [c] == PROMPT + (text + [c]);
    }
    if Echo(text, c) == "" {
      assert Printing("") == [];
    }
  }

  /** The cursor has left the prompt's row: it is never as far right as the line is long. */
  ghost predicate Lost(p: Page, text: string) {
    IsWindow(p) && p.x <= |text|
  }

  lemma PutCursor(p: Page, c: nat)
    requires IsWindow(p) && c < 0x100
    ensures IsWindow(Put(p, c))
    ensures Printable(c) ==> Put(p, c).x == if p.x + 1 < WIDTH then p.x + 1 else 0
    ensures c == BACKSPACE ==> Put(p, c).x == if p.x > 0 then p.x - 1 else 0
  {
  }

  lemma KeyStaysLost(p: Page, text: string, c: char)
    requires Lost(p, text) && !IsEnter(c)
    ensures Bytes(Echo(text, c)) && Lost(Windowed(p, Printing(Echo(text, c))), Edited(text, c))
  {
    hide Put, Printing;
    EchoIsBytes(text, c);
    if IsErase(c) {
      if text != "" {
        EraseSteps(p);
        PutCursor(p, BACKSPACE);
        PutCursor(Put(p, BACKSPACE), BLANK);
        PutCursor(Put(Put(p, BACKSPACE), BLANK), BACKSPACE);
      }
    } else if |text| < MAX_LINE && IsText(c) {
      PrintSingle(p, c);
      PutCursor(p, c as nat);
    }
    if Echo(text, c) == "" {
      assert Printing("") == [];
    }
  }

  /** The key that makes a line 31 characters long takes the cursor to the next row. */
  lemma KeyLoses(p: Page, text: string, c: char)
    requires Shows(p, text) && !IsEnter(c) && |Edited(text, c)| >= SHOWN
    ensures Bytes(Echo(text, c)) && Lost(Windowed(p, Printing(Echo(text, c))), Edited(text, c))
  {
    hide Put, Printing;
    EchoIsBytes(text, c);
    PrintSingle(p, c);
    PutCursor(p, c as nat);
  }

  /** The window while a line is typed. */
  function Typing(p: Page, keys: seq<char>): (q: Page)
    requires IsWindow(p)
    ensures IsWindow(q)
  {
    if keys == [] then p else
      var front := keys[..|keys| - 1];
      EchoIsBytes(Line(front), keys[|keys| - 1]);
      Windowed(Typing(p, front), Printing(Echo(Line(front), keys[|keys| - 1])))
  }

  /** The line never reached 31 characters. */
  predicate NeverLong(keys: seq<char>) {
    |Line(keys)| < SHOWN && (keys == [] || NeverLong(keys[..|keys| - 1]))
  }

  lemma {:induction false} ShownOrLost(p: Page, keys: seq<char>)
    requires IsWindow(p) && Shows(p, "") && NoEnter(keys)
    ensures if NeverLong(keys) then Shows(Typing(p, keys), Line(keys)) else Lost(Typing(p, keys), Line(keys))
  {
    if keys != [] {
      hide Shows, Lost, Put, Printing, Echo;
      var (front, c) := (keys[..|keys| - 1], keys[|keys| - 1]);
      assert forall d :: d in front ==> d in keys;
      assert c in keys;
      ShownOrLost(p, front);
      EchoIsBytes(Line(front), c);
      if !NeverLong(front) {
        KeyStaysLost(Typing(p, front), Line(front), c);
      } else if |Line(keys)| < SHOWN {
        KeyShown(Typing(p, front), Line(front), c);
      } else {
        KeyLoses(Typing(p, front), Line(front), c);
      }
    }
  }

  /** After any keys the row shows the prompt and the line exactly if the line never reached 31 characters. */
  lemma ShownIff(p: Page, keys: seq<char>)
    requires IsWindow(p) && Shows(p, "") && NoEnter(keys)
    ensures Shows(Typing(p, keys), Line(keys)) <==> NeverLong(keys)
  {
    ShownOrLost(p, keys);
  }

  // ---- The prompt -----------------------------------------------------------------

  predicate BlankText(row: Row) {
    forall i :: 0 <= i < |row| ==> row[i] % 0x100 == BLANK
  }

  /** Nothing stands below the cursor's row. */
  ghost predicate BlankBelow(p: Page) {
    IsWindow(p) && forall y :: p.y < y < HEIGHT ==> BlankText(p.rows[y])
  }

  lemma PutKeepsBlank(p: Page, c: nat)
    requires BlankBelow(p) && c < 0x100
    ensures BlankBelow(Put(p, c))
  {
    var typed := Typed(p, c);
    assert forall y :: p.y < y < HEIGHT ==> typed.rows[y] == p.rows[y];
    assert BlankText(BlankRow(p.color));
  }

  lemma NewlineIsBlank(p: Page)
    requires BlankBelow(p)
    ensures var q := Put(p, NEWLINE); BlankBelow(q) && q.x == 0 && BlankText(q.rows[q.y])
  {
    PutKeepsBlank(p, NEWLINE);
    assert BlankText(BlankRow(p.color));
  }

  /** Output never leaves anything below the cursor. */
  lemma {:induction false} OutputKeepsBlank(p: Page, events: seq<Event>)
    requires BlankBelow(p)
    ensures BlankBelow(Windowed(p, events))
  {
    if events != [] {
      hide Put;
      var front := events[..|events| - 1];
      OutputKeepsBlank(p, front);
      match events[|events| - 1]
      case Print(c) => PutKeepsBlank(Windowed(p, front), c);
      case Paint(color) =>
    }
  }

  /** On a screen that was cleared once, whatever was printed since: a prompt after a newline is shown, with an empty
      line. */
  lemma PromptIsShown(p: Page, events: seq<Event>)
    requires BlankBelow(p)
    ensures var q := Put(Windowed(p, events), NEWLINE);
            Bytes(PROMPT) && Shows(Windowed(q, Printing(PROMPT)), "")
  {
    OutputKeepsBlank(p, events);
    NewlineIsBlank(Windowed(p, events));
    hide Put, Printing, Windowed;
    var q := Put(Windowed(p, events), NEWLINE);
    assert At(q, "");
    PromptIsText();
    TypeText(q, "", PROMPT);
    assert "" + PROMPT == PROMPT + "";
  }

  lemma PromptIsText()
    ensures forall c :: c in PROMPT ==> IsText(c)
  {
  }

  /** A line of 31 characters and one backspace: 30 characters are left, and the prompt's row still shows 31. */
  lemma ThirtyOneAreLost(p: Page)
    requires IsWindow(p) && Shows(p, "")
    ensures var keys := seq(31, _ => 'x') + [BACKSPACE as char];
            |Line(keys)| == 30 && !Shows(Typing(p, keys), Line(keys))
  {
    var typed := seq(31, _ => 'x');
    var keys := typed + [BACKSPACE as char];
    TypedLine(31);
    assert keys[..31] == typed;
    ShownIff(p, keys);
  }

  lemma {:induction false} TypedLine(n: nat)
    requires n <= MAX_LINE
    ensures Line(seq(n, _ => 'x')) == seq(n, _ => 'x')
  {
    if n > 0 {
      TypedLine(n - 1);
      assert seq(n, _ => 'x')[..n - 1] == seq(n - 1, _ => 'x');
      assert seq(n, _ => 'x') == seq(n - 1, _ => 'x') + ['x'];
    }
  }
}
