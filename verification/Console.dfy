/**
 The text screen: two 40x25 windows side by side in one 80x25 buffer, with the
 timer interrupt drawing into the right one between any two statements.
 */
module Console {
  import opened Machine
  import opened Numbers
  import opened ConsoleModel
  import opened GuiModel
  import opened GuiText
  import opened Keyboard
  import Tape

  const VGA_WIDTH: nat := 80
  const VGA_HEIGHT: nat := 25
  const VGA_CELLS: nat := 2000

  // ---- Halves of the buffer -----------------------------------------------------

  /** The 25 rows of 40 cells that start at column `off`. */
  function HalfOf(cells: seq<Cell>, off: nat): (h: seq<Row>)
    requires |cells| == VGA_CELLS && off + WIDTH <= VGA_WIDTH
    ensures |h| == HEIGHT && forall r :: r in h ==> |r| == WIDTH
  {
    seq(HEIGHT, y requires 0 <= y < HEIGHT => cells[y * VGA_WIDTH + off..y * VGA_WIDTH + off + WIDTH])
  }

  /** One cell of the half it lies in changes, and nothing of the other. */
  lemma HalfPoked(cells: seq<Cell>, y: nat, x: nat, cell: Cell, off: nat)
    requires |cells| == VGA_CELLS && y < VGA_HEIGHT && x < VGA_WIDTH && off + WIDTH <= VGA_WIDTH
    ensures var after: seq<Cell> := cells[y * VGA_WIDTH + x := cell];
            HalfOf(after, off) ==
            if off <= x < off + WIDTH then WithCell(HalfOf(cells, off), y, x - off, cell) else HalfOf(cells, off)
  {
    var after: seq<Cell> := cells[y * VGA_WIDTH + x := cell];
    var expected := if off <= x < off + WIDTH then WithCell(HalfOf(cells, off), y, x - off, cell)
        else HalfOf(cells, off);
    forall r | 0 <= r < HEIGHT ensures HalfOf(after, off)[r] == expected[r] {
      assert forall c :: 0 <= c < WIDTH ==> HalfOf(after, off)[r][c] == expected[r][c];
    }
  }

  lemma HalfCell(cells: seq<Cell>, off: nat, y: nat, x: nat)
    requires |cells| == VGA_CELLS && off + WIDTH <= VGA_WIDTH && y < HEIGHT && x < WIDTH
    ensures HalfOf(cells, off)[y][x] == cells[y * VGA_WIDTH + off + x]
  {
  }

  // ---- Rows moving up -----------------------------------------------------------

  /** Row `y - 1` with its first `x` cells taken from row `y`. */
  function MovedUp(rows: seq<Row>, y: nat, x: nat): seq<Row>
    requires 0 < y < |rows| && |rows[y]| == |rows[y - 1]| && x <= |rows[y]|
  {
    var row: Row := rows[y][..x] + rows[y - 1][x..];
    rows[y - 1 := row]
  }

  lemma MoveCell(rows: seq<Row>, y: nat, x: nat)
    requires 0 < y < |rows| && |rows[y]| == |rows[y - 1]| && x < |rows[y]|
    ensures WithCell(MovedUp(rows, y, x), y - 1, x, rows[y][x]) == MovedUp(rows, y, x + 1)
  {
    var row := rows[y][..x] + rows[y - 1][x..];
    assert row[..x] + [rows[y][x]] + row[x + 1..] == rows[y][..x + 1] + rows[y - 1][x + 1..];
  }

  lemma MoveNothing(rows: seq<Row>, y: nat)
    requires 0 < y < |rows| && |rows[y]| == |rows[y - 1]|
    ensures MovedUp(rows, y, 0) == rows
  {
    assert rows[y][..0] + rows[y - 1][0..] == rows[y - 1];
  }

  /** The rows below the first have moved up, as far as row `y - 1`. */
  function Shifted(was: seq<Row>, y: nat): (rows: seq<Row>)
    requires 0 < y <= |was|
    ensures |rows| == |was|
  {
    was[1..y] + was[y - 1..]
  }

  lemma MoveRow(was: seq<Row>, y: nat)
    requires 0 < y < |was| && forall i :: 0 <= i < |was| ==> |was[i]| == WIDTH
    ensures var part := Shifted(was, y);
            |part[y]| == |part[y - 1]| == WIDTH && MovedUp(part, y, WIDTH) == Shifted(was, y + 1)
  {
    var above: Row := was[y - 1];
    assert was[y][..WIDTH] + above[WIDTH..] == was[y];
  }

  lemma ShiftEnds(was: seq<Row>, blank: Row)
    requires |was| == HEIGHT
    ensures Shifted(was, 1) == was
    ensures Shifted(was, HEIGHT)[HEIGHT - 1 := blank] == was[1..] + [blank]
  {
  }

  /** Row `y` with its first `x` cells blanked. */
  function BlankedTo(rows: seq<Row>, y: nat, x: nat, color: byte): seq<Row>
    requires y < |rows| && |rows[y]| == WIDTH && x <= WIDTH
  {
    var row: Row := BlankRow(color)[..x] + rows[y][x..];
    rows[y := row]
  }

  lemma BlankCell(rows: seq<Row>, y: nat, x: nat, color: byte)
    requires y < |rows| && |rows[y]| == WIDTH && x < WIDTH
    ensures WithCell(BlankedTo(rows, y, x, color), y, x, Entry(BLANK, color)) == BlankedTo(rows, y, x + 1, color)
  {
    var blank := BlankRow(color);
    var row := blank[..x] + rows[y][x..];
    assert row[..x] + [Entry(BLANK, color)] + row[x + 1..] == blank[..x + 1] + rows[y][x + 1..];
  }

  lemma BlankEnds(rows: seq<Row>, y: nat, color: byte)
    requires y < |rows| && |rows[y]| == WIDTH
    ensures BlankedTo(rows, y, 0, color) == rows
    ensures BlankedTo(rows, y, WIDTH, color) == rows[y := BlankRow(color)]
  {
    var blank := BlankRow(color);
    assert blank[..0] + rows[y][0..] == rows[y];
    assert blank[..WIDTH] + rows[y][WIDTH..] == blank;
  }

  function BlankRows(color: byte): (rows: seq<Row>)
    ensures |rows| == HEIGHT
  {
    seq(HEIGHT, _ => BlankRow(color))
  }

  /** The first `y` rows blanked. */
  function ClearedTo(was: seq<Row>, y: nat, color: byte): (rows: seq<Row>)
    requires y <= |was| == HEIGHT
    ensures |rows| == HEIGHT
  {
    BlankRows(color)[..y] + was[y..]
  }

  lemma ClearRow(was: seq<Row>, y: nat, color: byte)
    requires y < |was| == HEIGHT
    ensures ClearedTo(was, y, color)[y := BlankRow(color)] == ClearedTo(was, y + 1, color)
  {
    hide BlankRow;
  }

  lemma ClearEnds(was: seq<Row>, color: byte)
    requires |was| == HEIGHT
    ensures ClearedTo(was, 0, color) == was && ClearedTo(was, HEIGHT, color) == BlankRows(color)
  {
    hide BlankRows;
  }

  /** The effect of `vga_manager_clear`. */
  function Cleared(p: Page): Page
    requires p.color < 0x100
  {
    Page(BlankRows(p.color), 0, 0, p.color)
  }

  lemma ClearedIsBlank(p: Page)
    requires p.color < 0x100
    ensures forall y, x :: 0 <= y < HEIGHT && 0 <= x < WIDTH ==> Tape.Holds(Cleared(p), y, x, ' ', p.color)
  {
  }

  lemma DigitsAreBytes(num: u32)
    ensures Bytes(Digits(num, 10)) && |Digits(num, 10)| <= 10
    ensures num == 0 ==> Digits(num, 10) == "0"
  {
    DigitsArePlain(num);
    Powers();
    DigitCount(num, 10);
  }

  /** One digit moves from what is left of the number to what is in the buffer. */
  lemma EmitOne(n: nat, done: string, c: char)
    requires n > 0 && c == '0' + (n % 10) as char
    ensures Pending(n / 10 > 0, n / 10, 10) + Backward(done + [c]) == Pending(true, n, 10) + Backward(done)
    ensures |Pending(n / 10 > 0, n / 10, 10)| + 1 == |Pending(true, n, 10)|
  {
    hide Digits;
    LastDigit(n, 10);
    BackwardAppend(done, c);
    assert Pending(n / 10 > 0, n / 10, 10) + ([c] + Backward(done))
           == Pending(n / 10 > 0, n / 10, 10) + [c] + Backward(done);
  }

  lemma NothingPending(n: nat)
    ensures Backward("") == "" && Pending(false, n, 10) == ""
  {
  }

  /** The loop of `terminal_put_dec` over the digits, last digit first. */
  method EmitDecimal(num: u32, buf: array<char>) returns (i: nat)
    requires num > 0 && |Digits(num, 10)| <= buf.Length
    modifies buf
    ensures i == |Digits(num, 10)|
    ensures forall j :: 0 <= j < i ==> buf[i - 1 - j] == Digits(num, 10)[j]
  {
    hide Digits;
    var n: nat := num;
    i := 0;
    NothingPending(num);
    assert buf[..0] == "";
    while n > 0
      invariant i + |Pending(n > 0, n, 10)| == |Digits(num, 10)|
      invariant Pending(n > 0, n, 10) + Backward(buf[..i]) == Digits(num, 10)
      decreases n
    {
      ghost var done := buf[..i];
      var c := '0' + (n % 10) as char;
      EmitOne(n, done, c);
      buf[i] := c;
      i := i + 1;
      assert buf[..i] == done + [c];
      n := n / 10;
    }
    NothingPending(n);
    assert Backward(buf[..i]) == Digits(num, 10);
  }

  /** An interrupt that puts a code into a ring with room for it. */
  predicate BringsKey(i: Interrupt) {
    i.Keystroke? && Buffered(i.code)
  }

  /** A key is pressed at point `p`. */
  predicate KeyDue(arrivals: Schedule, p: nat) {
    exists i :: 0 <= i < |arrivals(p)| && BringsKey(arrivals(p)[i])
  }

  lemma KeysOneMore(arrivals: Schedule, n: nat)
    ensures KeysUntil(arrivals, n + 1) == KeysUntil(arrivals, n) + KeysOf(arrivals(n))
  {
  }

  lemma KeysMore(h: History, codes: seq<byte>, i: Interrupt)
    ensures h + Cames(codes) + match i { case Timer(_) => [] case Keystroke(code) => [Came(code)] }
            == h + Cames(codes + match i { case Timer(_) => [] case Keystroke(code) => [code] })
  {
    match i
    case Timer(_) => assert codes + [] == codes;
    case Keystroke(code) => assert Cames(codes + [code]) == Cames(codes) + [Came(code)];
  }

  lemma NothingHandled(g: Gui, h: History)
    requires g.Ok()
    ensures Handled(g, []) == g && h + Cames(KeysOf([])) == h
  {
    assert Cames(KeysOf([])) == [];
  }

  // ---- The screen ---------------------------------------------------------------

  /** Cursor and place of a window. */
  class Context {
    var cursorX: nat
    var cursorY: nat
    var color: byte
    const startX: nat
    const startY: nat := 0
    const width: nat := WIDTH
    const height: nat := HEIGHT

    constructor (startX: nat)
      ensures cursorX == 0 && cursorY == 0 && color == 0x0F && this.startX == startX
    {
      cursorX := 0;
      cursorY := 0;
      color := 0x0F;
      this.startX := startX;
    }
  }

  class Screen {
    const vga: array<Cell>
    const kernel: Context
    const gui: Context
    const keyboard: KeyboardDriver
    /** The interrupts that come at each point where they can. */
    const arrivals: Schedule

    var current: Context
    var fullX: nat
    var fullY: nat
    var fullColor: byte
    var ticks: u32
    /** Interrupts are on. */
    var enabled: bool
    /** Points passed so far. */
    var point: nat

    /** The two halves of the buffer. */
    ghost var left: seq<Row>
    ghost var right: seq<Row>

    /** The right half before the interrupts since point `base`. */
    ghost var origin: Gui
    ghost var base: nat

    /** `vga_manager_init` */
    constructor (vga: array<Cell>, keyboard: KeyboardDriver, arrivals: Schedule)
      requires vga.Length == VGA_CELLS && keyboard.InOrder() && keyboard.history == []
      modifies vga, keyboard, keyboard.buffer
      ensures Valid() && !enabled && current == kernel && fresh(kernel) && fresh(gui)
      ensures this.vga == vga && this.keyboard == keyboard && this.arrivals == arrivals
      ensures WindowOf(kernel) == Page(BlankRows(0x0F), 0, 0, 0x0F) == WindowOf(gui)
      ensures ticks == 0
    {
      hide HalfOf, KeyboardDriver.InOrder, BlankRow;
      this.vga, this.keyboard, this.arrivals := vga, keyboard, arrivals;
      var k := new Context(0);
      kernel, current := k, k;
      gui := new Context(WIDTH);
      fullX, fullY, fullColor, ticks, enabled, point := 0, 0, 0x0F, 0, false, 0;
      left := HalfOf(vga[..], 0);
      var h := HalfOf(vga[..], WIDTH);
      right := h;
      base := 0;
      origin := Gui(h, 0, 0, 0x0F, 0);
      new;
      Init();
    }

    method Init()
      requires Valid() && !enabled && current == kernel
      requires kernel.color == gui.color == 0x0F
      modifies vga, this`left, this`right, this`fullX, this`fullY, this`fullColor, this`ticks, this`point
      modifies keyboard`end, keyboard`modifiers, keyboard`history, keyboard.buffer, this`origin, this`base
      modifies this`current
      modifies kernel, gui
      ensures Valid() && current == kernel
      ensures WindowOf(kernel) == Page(BlankRows(0x0F), 0, 0, 0x0F) == WindowOf(gui)
      ensures ticks == old(ticks)
    {
      hide Fired, HalfOf, KeyboardDriver.InOrder, Codes, Delivered, KeysUntil;
      SetContext(false);
      Clear();
      SetContext(true);
      Clear();
      SetContext(false);
    }

    ghost predicate Mirror()
      reads this, vga
    {
      && vga.Length == VGA_CELLS
      && left == HalfOf(vga[..], 0) && right == HalfOf(vga[..], WIDTH)
    }

    /** What interrupts may change. */
    ghost function Side(): Gui
      reads this
    {
      Gui(right, fullX, fullY, fullColor, ticks)
    }

    /** The windows do not overlap, and the right half is what the interrupts since `base` made of it. */
    ghost predicate Layout()
      reads this, vga, keyboard, keyboard.buffer
    {
      && Mirror()
      && keyboard.InOrder() && Codes(keyboard.history) == KeysUntil(arrivals, point)
      && kernel != gui && (current == kernel || current == gui)
      && kernel.startX == 0 && gui.startX == WIDTH
      && (enabled ==> current == kernel)
      && origin.Ok() && base <= point
      && Side() == Fired(origin, arrivals, base, point)
    }

    ghost function RowsOf(c: Context): seq<Row>
      reads this
    {
      if c == gui then right else left
    }

    ghost function WindowOf(c: Context): Page
      reads this, c
    {
      Page(RowsOf(c), c.cursorX, c.cursorY, c.color)
    }

    /** The window that output goes to. */
    ghost function Window(): Page
      reads this, current
    {
      WindowOf(current)
    }

    /** Both cursors are inside their windows besides. */
    ghost predicate Valid()
      reads this, vga, kernel, gui, keyboard, keyboard.buffer
    {
      && Layout()
      && IsWindow(WindowOf(kernel)) && IsWindow(WindowOf(gui))
    }

    /** The right half is what the interrupts since point `from` made of `side`. */
    ghost predicate TickedSince(side: Gui, from: nat)
      reads this
    {
      side.Ok() && from <= point && Side() == Fired(side, arrivals, from, point)
    }

    /** Beside the current window and the keyboard only the interrupts since `base` have had an effect. */
    twostate predicate Undisturbed()
      reads this, keyboard
    {
      && current == old(current) && enabled == old(enabled) && old(point) <= point
      && (current == kernel ==> origin == old(origin) && base == old(base))
      && (!enabled ==> Side().(right := old(right)) == old(Side()))
      && (current == gui ==> left == old(left))
      && old(keyboard.history) <= keyboard.history
    }

    /** And nothing was taken out of the keyboard's ring. */
    twostate predicate OnlyInterrupted()
      reads this, keyboard
    {
      && Undisturbed() && keyboard.start == old(keyboard.start)
      && Delivered(keyboard.history) == Delivered(old(keyboard.history))
    }

    /** At every moment: what was taken and what waits are the buffered codes of the schedule so far, in order, exactly
        if none of them found 127 others waiting; otherwise they are fewer. */
    lemma KeysArriveIff()
      requires Layout()
      ensures var (h, typed) := (keyboard.history, BufferedOf(KeysUntil(arrivals, point)));
              && |Delivered(h)| + |keyboard.Pending()| <= |typed|
              && (Delivered(h) + keyboard.Pending() == typed <==> NeverFull(h))
    {
      hide Delivered, Queue, BufferedOf, NeverFull, Ring, Modifiers, Fired, KeysUntil, Codes, HalfOf;
      NothingIsLostIff(keyboard.history);
    }

    // ---- The interrupt ----------------------------------------------------------

    method Store(y: nat, x: nat, cell: Cell)
      requires Mirror() && y < VGA_HEIGHT && x < VGA_WIDTH
      modifies vga, this`left, this`right
      ensures Mirror()
      ensures x < WIDTH ==> left == WithCell(old(left), y, x, cell) && right == old(right)
      ensures x >= WIDTH ==> left == old(left) && right == WithCell(old(right), y, x - WIDTH, cell)
    {
      hide WithCell, HalfOf;
      HalfPoked(vga[..], y, x, cell, 0);
      HalfPoked(vga[..], y, x, cell, WIDTH);
      vga[y * VGA_WIDTH + x] := cell;
      left, right := HalfOf(vga[..], 0), HalfOf(vga[..], WIDTH);
    }

    method FullscreenSetColor(fg: nat, bg: nat)
      requires fg < 16 && bg < 16
      modifies this`fullColor
      ensures fullColor == Color(fg, bg)
    {
      fullColor := fg + 16 * bg;
    }

    method FullscreenSetCursorPos(x: int, y: int)
      modifies this`fullX, this`fullY
      ensures if 0 <= x < VGA_WIDTH && 0 <= y < VGA_HEIGHT then fullX == x && fullY == y
              else fullX == old(fullX) && fullY == old(fullY)
    {
      if x >= 0 && x < VGA_WIDTH && y >= 0 && y < VGA_HEIGHT {
        fullX := x;
        fullY := y;
      }
    }

    /** The cursor after a character: it wraps to the next row, and nothing scrolls. */
    static function FullscreenNext(x: nat, y: nat, c: nat): (nat, nat) {
      if c == NEWLINE then (0, y + 1)
      else if c == RETURN then (0, y)
      else if c == BACKSPACE then (if x > 0 then (x - 1, y) else (x, y))
      else if Printable(c) then (if x + 1 >= VGA_WIDTH then (0, y + 1) else (x + 1, y))
      else (x, y)
    }

    /** In reading order of the 80 columns: a printable character moves the cursor one place on, also from the end of a
        line
        to the start of the next. */
    static lemma FullscreenMoves(x: nat, y: nat, c: nat)
      requires x < 80
      ensures var to := FullscreenNext(x, y, c);
              && to.0 < 80
              && 80 * to.1 + to.0 ==
                 if c == 10 then 80 * (y + 1) else if c == 13 then 80 * y
                 else if c == 8 then 80 * y + (if x > 0 then x - 1 else 0)
                 else if 32 <= c < 128 then 80 * y + x + 1 else 80 * y + x
    {
    }

    method FullscreenPutchar(c: nat)
      requires Mirror() && fullX < VGA_WIDTH && fullY < VGA_HEIGHT && c < 0x100
      modifies vga, this`left, this`right, this`fullX, this`fullY
      ensures Mirror()
      ensures (fullX, fullY) == FullscreenNext(old(fullX), old(fullY), c)
      ensures var (x, y) := (if Printable(c) then old(fullX) else old(fullX) - 1, old(fullY));
              var cell := Entry(if Printable(c) then c else BLANK, fullColor);
              if Printable(c) || (c == BACKSPACE && x >= 0) then
                && left == (if x < WIDTH then WithCell(old(left), y, x, cell) else old(left))
                && right == (if x < WIDTH then old(right) else WithCell(old(right), y, x - WIDTH, cell))
              else left == old(left) && right == old(right)
    {
      hide HalfOf, WithCell;
      if c == NEWLINE {
        fullX := 0;
        fullY := fullY + 1;
      } else if c == RETURN {
        fullX := 0;
      } else if c == BACKSPACE {
        if fullX > 0 {
          fullX := fullX - 1;
          Store(fullY, fullX, Entry(BLANK, fullColor));
        }
      } else if Printable(c) {
        Store(fullY, fullX, Entry(c, fullColor));
        fullX := fullX + 1;
      }
      if fullX >= VGA_WIDTH {
        fullX := 0;
        fullY := fullY + 1;
      }
    }

    /** The loop that clears a line of the panel. */
    method ClearLine(row: nat)
      requires Mirror() && row < HEIGHT
      modifies vga, this`left, this`right, this`fullX, this`fullY
      ensures Mirror() && left == old(left)
      ensures right == old(right)[row := BlankRow(fullColor)]
    {
      hide HalfOf, WithCell, BlankRow;
      BlankEnds(right, row, fullColor);
      for x := WIDTH to VGA_WIDTH
        invariant Mirror() && left == old(left)
        invariant right == BlankedTo(old(right), row, x - WIDTH, fullColor)
      {
        FullscreenSetCursorPos(x, row);
        FullscreenPutchar(BLANK);
        BlankCell(old(right), row, x - WIDTH, fullColor);
      }
    }

    /** Text that fits between the cursor and the right edge. */
    method FullscreenPuts(str: string)
      requires Mirror() && WIDTH <= fullX && fullX + |str| < VGA_WIDTH && fullY < HEIGHT && Plain(str)
      modifies vga, this`left, this`right, this`fullX, this`fullY
      ensures Mirror() && left == old(left)
      ensures fullX == old(fullX) + |str| && fullY == old(fullY)
      ensures right == old(right)[fullY := Overwritten(old(right)[fullY], old(fullX) - WIDTH, str, fullColor)]
    {
      hide HalfOf, BlankRow, Entry, Overwritten;
      ghost var row := right[fullY];
      ghost var at := fullX - WIDTH;
      OverwriteNone(row, at, str, fullColor);
      for i := 0 to |str|
        invariant fullX == old(fullX) + i && fullY == old(fullY)
        invariant Mirror() && left == old(left)
        invariant Plain(str[..i]) && right == old(right)[fullY := Overwritten(row, at, str[..i], fullColor)]
      {
        OverwriteOne(row, at, str, i, fullColor);
        FullscreenPutchar(str[i] as nat);
      }
      assert str[..|str|] == str;
    }

    static lemma OverwriteNone(row: Row, at: nat, str: string, color: nat)
      requires |row| == WIDTH && at + |str| <= WIDTH && Plain(str) && color < 0x100
      ensures Plain(str[..0]) && Overwritten(row, at, str[..0], color) == row
    {
    }

    static lemma PlainPrefix(str: string, k: nat)
      requires Plain(str) && k <= |str|
      ensures Plain(str[..k])
    {
      forall c | c in str[..k] ensures Printable(c as nat) {
        assert c in str;
      }
    }

    static lemma OverwriteTwice(row: Row, at: nat, s: string, t: string, color: byte)
      requires at + |s| + |t| <= |row| && Plain(s) && Plain(t)
      ensures Plain(s + t)
      ensures Overwritten(Overwritten(row, at, s, color), at + |s|, t, color) == Overwritten(row, at, s + t, color)
    {
    }

    static lemma OverwriteOne(row: Row, at: nat, str: string, i: nat, color: byte)
      requires at + |str| <= |row| && Plain(str) && i < |str|
      ensures Plain(str[..i]) && Plain(str[..i + 1]) && Printable(str[i] as nat)
      ensures Overwritten(row, at, str[..i + 1], color) ==
              Overwritten(row, at, str[..i], color)[..at + i] + [Entry(str[i] as nat, color)]
              + Overwritten(row, at, str[..i], color)[at + i + 1..]
    {
      assert str[i] in str;
      PlainPrefix(str, i);
      PlainPrefix(str, i + 1);
    }

    /** Clears a line of the panel and leaves the cursor at its second column. */
    method StartLine(row: nat, clear: byte, fg: nat, bg: nat)
      requires Mirror() && row < HEIGHT && fullColor == clear && fg < 16 && bg < 16
      modifies vga, this`left, this`right, this`fullX, this`fullY, this`fullColor
      ensures Mirror() && left == old(left) && right == old(right)[row := BlankRow(clear)]
      ensures fullX == 41 && fullY == row && fullColor == Color(fg, bg)
    {
      hide HalfOf;
      ClearLine(row);
      FullscreenSetColor(fg, bg);
      FullscreenSetCursorPos(41, row);
    }

    method DrawTime(a: Arrival)
      requires Mirror()
      modifies vga, this`left, this`right, this`fullX, this`fullY, this`fullColor
      ensures Mirror() && left == old(left) && Side() == DrawnTime(old(Side()), a) && ShowsTime(Side(), a)
    {
      hide HalfOf, Overwritten, BlankRow, ClockText, ShowsTime, ReadsClock;
      ghost var side := Side();
      TextsFit(a, ticks);
      var text := FormatTime(a.hour, a.minute, a.second);
      ClockIsPlain(a.hour, a.minute, a.second);
      FullscreenSetColor(WHITE, BLACK);
      StartLine(TIME_ROW, fullColor, LIGHT_CYAN, BLACK);
      FullscreenPuts("Time: ");
      FullscreenPuts(text);
      OverwriteTwice(BlankRow(Color(WHITE, BLACK)), 1, "Time: ", text, fullColor);
      TimeIsShown(side, a);
    }

    method DrawMemory(a: Arrival)
      requires Mirror()
      modifies vga, this`left, this`right, this`fullX, this`fullY, this`fullColor
      ensures Mirror() && left == old(left) && Side() == DrawnMemory(old(Side()), a) && ShowsMemory(Side(), a.free)
    {
      hide HalfOf, Overwritten, BlankRow, ShowsMemory;
      ghost var side := Side();
      TextsFit(a, ticks);
      var text := FormatMemory(a.free / 1024, 0x1_0000 / 1024);
      assert text == MemoryText(a);
      FullscreenSetColor(WHITE, BLUE);
      StartLine(MEMORY_ROW, fullColor, WHITE, BLUE);
      FullscreenPuts(text);
      MemoryIsShown(side, a);
    }

    method DrawUptime()
      requires Mirror()
      modifies vga, this`left, this`right, this`fullX, this`fullY, this`fullColor
      ensures Mirror() && left == old(left) && Side() == DrawnUptime(old(Side())) && ShowsUptime(Side(), ticks / 18)
    {
      hide HalfOf, Overwritten, BlankRow, UptimeText, MemoryText, ClockText, ShowsUptime, ReadsSeconds;
      ghost var side := Side();
      TextsFit(Arrival(0, 0, 0, 0), ticks);
      var text := FormatUptime(ticks);
      FullscreenSetColor(WHITE, BLUE);
      StartLine(UPTIME_ROW, fullColor, WHITE, BLUE);
      FullscreenPuts(text);
      UptimeIsShown(side);
    }

    method TimerHandler(a: Arrival)
      requires Mirror()
      modifies vga, this`left, this`right, this`fullX, this`fullY, this`fullColor, this`ticks
      ensures Mirror() && left == old(left) && Side() == Tick(old(Side()), a)
      ensures if ticks % 18 == 0 then ShowsTime(Side(), a) && ShowsMemory(Side(), a.free)
              && ShowsUptime(Side(), ticks / 18)
              else right == old(right)
    {
      hide ShowsTime, ShowsMemory, ShowsUptime;
      TickShows(Side(), a);
      ticks := NextTick(ticks);
      if ticks % TICKS_PER_DRAWING == 0 {
        DrawTime(a);
        DrawMemory(a);
        DrawUptime();
      }
    }

    method HandleOne(i: Interrupt)
      requires Mirror() && keyboard.InOrder()
      modifies vga, this`left, this`right, this`fullX, this`fullY, this`fullColor, this`ticks
      modifies keyboard`end, keyboard`modifiers, keyboard`history, keyboard.buffer
      ensures Mirror() && left == old(left) && keyboard.InOrder()
      ensures Side() == match i { case Timer(a) => Tick(old(Side()), a) case Keystroke(_) => old(Side()) }
      ensures keyboard.history
              == old(keyboard.history) + match i { case Timer(_) => [] case Keystroke(code) => [Came(code)] }
      ensures BringsKey(i) || old(keyboard.Pending()) != [] ==> keyboard.Pending() != []
    {
      hide HalfOf, Tick, Ring, Queue, Modifiers;
      match i
      case Timer(a) => TimerHandler(a);
      case Keystroke(code) =>
        OneEventMore(keyboard.history, Came(code));
        keyboard.Handler(code);
    }

    /** The interrupts that come together at one point, one after the other. */
    method HandleAll(interrupts: seq<Interrupt>)
      requires Mirror() && keyboard.InOrder()
      modifies vga, this`left, this`right, this`fullX, this`fullY, this`fullColor, this`ticks
      modifies keyboard`end, keyboard`modifiers, keyboard`history, keyboard.buffer
      ensures Mirror() && left == old(left) && Side() == Handled(old(Side()), interrupts)
      ensures keyboard.InOrder() && keyboard.history == old(keyboard.history) + Cames(KeysOf(interrupts))
      ensures (exists i :: 0 <= i < |interrupts| && BringsKey(interrupts[i])) ==> keyboard.Pending() != []
    {
      hide Handled, HalfOf, Tick, KeysOf, Ring, Queue, Modifiers, Cames;
      ghost var (side, h) := (Side(), keyboard.history);
      NothingHandled(side, h);
      for i := 0 to |interrupts|
        invariant Mirror() && left == old(left) && Side() == Handled(side, interrupts[..i])
        invariant keyboard.InOrder() && keyboard.history == h + Cames(KeysOf(interrupts[..i]))
        invariant (exists j :: 0 <= j < i && BringsKey(interrupts[j])) ==> keyboard.Pending() != []
      {
        HandledOneMore(side, interrupts, i);
        HandleOne(interrupts[i]);
        KeysMore(h, KeysOf(interrupts[..i]), interrupts[i]);
      }
      assert interrupts[..|interrupts|] == interrupts;
    }

    /** A point between two statements: what interrupts there are come here, if interrupts are on. */
    method Interrupts()
      requires Layout()
      modifies vga, this`left, this`right, this`fullX, this`fullY, this`fullColor, this`ticks, this`point
      modifies keyboard`end, keyboard`modifiers, keyboard`history, keyboard.buffer
      ensures Layout() && OnlyInterrupted() && RowsOf(current) == old(RowsOf(current))
      ensures keyboard.history == old(keyboard.history) + if enabled then Cames(KeysOf(arrivals(old(point)))) else []
      ensures old(keyboard.Pending()) <= keyboard.Pending()
      ensures enabled ==> point == old(point) + 1 && (KeyDue(arrivals, old(point)) ==> keyboard.Pending() != [])
    {
      hide Fired, Handled, HalfOf, Tick, KeysOf, KeysUntil, Ring, Queue, Modifiers, Codes, Delivered, Cames;
      if enabled {
        FiredOnce(origin, arrivals, base, point);
        KeysOneMore(arrivals, point);
        CamesOnly(keyboard.history, KeysOf(arrivals(point)));
        HandleAll(arrivals(point));
        point := point + 1;
      }
    }

    method SetContext(isGui: bool)
      requires Valid() && (enabled ==> !isGui)
      modifies this`current, this`origin, this`base
      ensures Valid() && current == (if isGui then gui else kernel)
      ensures current == old(current) ==> OnlyInterrupted()
    {
      var was := current;
      current := if isGui then gui else kernel;
      if current != was {
        Rebase();
      }
    }

    /** Forgets how the right half came to be what it is. */
    ghost method Rebase()
      requires Mirror()
      modifies this`origin, this`base
      ensures base == point && origin == Side() == Fired(origin, arrivals, base, point) && origin.Ok()
    {
      origin, base := Side(), point;
    }

    // ---- Output to the current window -------------------------------------------

    method Poke(y: nat, x: nat, cell: Cell)
      requires Layout() && y < HEIGHT && x < WIDTH
      modifies vga, this`left, this`right, this`origin, this`base
      ensures Layout() && OnlyInterrupted() && RowsOf(current) == WithCell(old(RowsOf(current)), y, x, cell)
    {
      hide Fired, HalfOf, KeyboardDriver.InOrder, Codes, Delivered, KeysUntil;
      Store(current.startY + y, current.startX + x, cell);
      if current == gui {
        Rebase();
      }
    }

    method Peek(y: nat, x: nat) returns (cell: Cell)
      requires Layout() && y < HEIGHT && x < WIDTH
      ensures cell == RowsOf(current)[y][x]
    {
      hide Fired, HalfOf, KeyboardDriver.InOrder, Codes, Delivered, KeysUntil;
      HalfCell(vga[..], current.startX, y, x);
      cell := vga[(current.startY + y) * VGA_WIDTH + current.startX + x];
    }

    method LiftCell(y: nat, x: nat) returns (cell: Cell)
      requires Layout() && y < HEIGHT && x < WIDTH
      modifies vga, this`left, this`right, this`fullX, this`fullY, this`fullColor, this`ticks, this`point
      modifies keyboard`end, keyboard`modifiers, keyboard`history, keyboard.buffer
      ensures Layout() && OnlyInterrupted() && RowsOf(current) == old(RowsOf(current))
              && cell == old(RowsOf(current))[y][x]
    {
      hide Fired, HalfOf, KeyboardDriver.InOrder, Codes, Delivered, KeysUntil;
      cell := Peek(y, x);
      Interrupts();
    }

    method CopyCellUp(y: nat, x: nat)
      requires Layout() && 0 < y < HEIGHT && x < WIDTH
      modifies vga, this`left, this`right, this`fullX, this`fullY, this`fullColor, this`ticks, this`point
      modifies keyboard`end, keyboard`modifiers, keyboard`history, keyboard.buffer, this`origin, this`base
      ensures Layout() && OnlyInterrupted()
      ensures RowsOf(current) == WithCell(old(RowsOf(current)), y - 1, x, old(RowsOf(current)[y][x]))
    {
      hide Fired, HalfOf, KeyboardDriver.InOrder, Codes, Delivered, KeysUntil, Mirror, WithCell;
      var cell := LiftCell(y, x);
      Poke(y - 1, x, cell);
      Interrupts();
    }

    /** Row `y` is copied over the row above it. */
    method CopyRowUp(y: nat)
      requires Layout() && 0 < y < HEIGHT
      modifies vga, this`left, this`right, this`fullX, this`fullY, this`fullColor, this`ticks, this`point
      modifies keyboard`end, keyboard`modifiers, keyboard`history, keyboard.buffer, this`origin, this`base
      ensures Layout() && OnlyInterrupted() && RowsOf(current) == MovedUp(old(RowsOf(current)), y, WIDTH)
    {
      hide Fired, HalfOf, KeyboardDriver.InOrder, Codes, Delivered, KeysUntil, WithCell;
      ghost var was := RowsOf(current);
      MoveNothing(was, y);
      for x := 0 to WIDTH
        invariant Layout() && OnlyInterrupted()
        invariant RowsOf(current) == MovedUp(was, y, x)
      {
        CopyCellUp(y, x);
        MoveCell(was, y, x);
      }
    }

    method PokeAndPause(y: nat, x: nat, cell: Cell)
      requires Layout() && y < HEIGHT && x < WIDTH
      modifies vga, this`left, this`right, this`fullX, this`fullY, this`fullColor, this`ticks, this`point
      modifies keyboard`end, keyboard`modifiers, keyboard`history, keyboard.buffer, this`origin, this`base
      ensures Layout() && OnlyInterrupted() && RowsOf(current) == WithCell(old(RowsOf(current)), y, x, cell)
    {
      hide Fired, HalfOf, KeyboardDriver.InOrder, Codes, Delivered, KeysUntil, WithCell, Mirror;
      Poke(y, x, cell);
      Interrupts();
    }

    method BlankOut(y: nat, blank: Cell)
      requires Layout() && y < HEIGHT && blank == Entry(BLANK, current.color)
      modifies vga, this`left, this`right, this`fullX, this`fullY, this`fullColor, this`ticks, this`point
      modifies keyboard`end, keyboard`modifiers, keyboard`history, keyboard.buffer, this`origin, this`base
      ensures Layout() && OnlyInterrupted() && RowsOf(current) == old(RowsOf(current))[y := BlankRow(current.color)]
    {
      hide Fired, HalfOf, KeyboardDriver.InOrder, Codes, Delivered, KeysUntil, WithCell, BlankRow, BlankedTo, Entry;
      ghost var was := RowsOf(current);
      BlankEnds(was, y, current.color);
      for x := 0 to WIDTH
        invariant Layout() && OnlyInterrupted()
        invariant RowsOf(current) == BlankedTo(was, y, x, current.color)
      {
        PokeAndPause(y, x, blank);
        BlankCell(was, y, x, current.color);
      }
    }

    /** The top row goes and a blank one comes in at the bottom. */
    method Scroll()
      requires Layout()
      modifies vga, this`left, this`right, this`fullX, this`fullY, this`fullColor, this`ticks, this`point
      modifies keyboard`end, keyboard`modifiers, keyboard`history, keyboard.buffer, this`origin, this`base
      ensures Layout() && OnlyInterrupted() && RowsOf(current) == old(RowsOf(current))[1..] + [BlankRow(current.color)]
    {
      hide Fired, HalfOf, KeyboardDriver.InOrder, Codes, Delivered, KeysUntil, Shifted, BlankRow;
      ghost var was := RowsOf(current);
      ShiftEnds(was, BlankRow(current.color));
      for y := 1 to current.height
        invariant Layout() && OnlyInterrupted()
        invariant RowsOf(current) == Shifted(was, y)
      {
        MoveRow(was, y);
        CopyRowUp(y);
      }
      var blank := Entry(BLANK, current.color);
      Interrupts();
      BlankOut(current.height - 1, blank);
    }

    method ClearRows(blank: Cell)
      requires Layout() && blank == Entry(BLANK, current.color)
      modifies vga, this`left, this`right, this`fullX, this`fullY, this`fullColor, this`ticks, this`point
      modifies keyboard`end, keyboard`modifiers, keyboard`history, keyboard.buffer, this`origin, this`base
      ensures Layout() && OnlyInterrupted() && RowsOf(current) == BlankRows(current.color)
    {
      hide Fired, HalfOf, KeyboardDriver.InOrder, Codes, Delivered, KeysUntil, BlankRow, BlankRows, ClearedTo;
      ghost var was := RowsOf(current);
      ClearEnds(was, current.color);
      for y := 0 to current.height
        invariant Layout() && OnlyInterrupted()
        invariant RowsOf(current) == ClearedTo(was, y, current.color)
      {
        BlankOut(y, blank);
        ClearRow(was, y, current.color);
      }
    }

    method HomeCursor()
      requires Layout()
      modifies vga, this`left, this`right, this`fullX, this`fullY, this`fullColor, this`ticks, this`point
      modifies keyboard`end, keyboard`modifiers, keyboard`history, keyboard.buffer, current
      ensures Layout() && OnlyInterrupted()
      ensures Window() == old(Window()).(x := 0, y := 0)
    {
      hide Fired, HalfOf, KeyboardDriver.InOrder, Codes, Delivered, KeysUntil;
      current.cursorX := 0;
      Interrupts();
      current.cursorY := 0;
      Interrupts();
    }

    method Clear()
      requires Valid()
      modifies vga, this`left, this`right, this`fullX, this`fullY, this`fullColor, this`ticks, this`point
      modifies keyboard`end, keyboard`modifiers, keyboard`history, keyboard.buffer, this`origin, this`base
      modifies current
      ensures Valid() && OnlyInterrupted()
      ensures Window() == Cleared(old(Window()))
      ensures Window().x == 0 && Window().y == 0 && Window().color == old(Window().color)
      ensures forall y, x :: 0 <= y < HEIGHT && 0 <= x < WIDTH ==> Tape.Holds(Window(), y, x, ' ', Window().color)
    {
      hide Fired, HalfOf, KeyboardDriver.InOrder, Codes, Delivered, KeysUntil, BlankRow;
      ClearedIsBlank(Window());
      var blank := Entry(BLANK, current.color);
      ClearRows(blank);
      HomeCursor();
    }

    method SetColor(fg: nat, bg: nat)
      requires Valid() && fg < 16 && bg < 16
      modifies current
      ensures Valid() && OnlyInterrupted()
      ensures Window() == old(Window()).(color := Color(fg, bg))
    {
      current.color := fg + 16 * bg;
    }

    method Backspace()
      requires Valid()
      modifies vga, this`left, this`right, this`fullX, this`fullY, this`fullColor, this`ticks, this`point
      modifies keyboard`end, keyboard`modifiers, keyboard`history, keyboard.buffer, this`origin, this`base
      modifies current
      ensures Layout() && OnlyInterrupted()
      ensures Window() == Typed(old(Window()), BACKSPACE)
    {
      hide Fired, HalfOf, KeyboardDriver.InOrder, Codes, Delivered, KeysUntil, WithCell;
      if current.cursorX > 0 {
        current.cursorX := current.cursorX - 1;
        Interrupts();
        Poke(current.cursorY, current.cursorX, Entry(BLANK, current.color));
      }
    }

    method Strike(c: nat)
      requires Valid() && Printable(c)
      modifies vga, this`left, this`right, this`fullX, this`fullY, this`fullColor, this`ticks, this`point
      modifies keyboard`end, keyboard`modifiers, keyboard`history, keyboard.buffer, this`origin, this`base
      modifies current
      ensures Layout() && OnlyInterrupted()
      ensures Window() == Typed(old(Window()), c)
    {
      hide Fired, HalfOf, KeyboardDriver.InOrder, Codes, Delivered, KeysUntil, WithCell;
      Poke(current.cursorY, current.cursorX, Entry(c, current.color));
      Interrupts();
      current.cursorX := current.cursorX + 1;
    }

    /** What a character does before the cursor wraps. */
    method PrintChar(c: nat)
      requires Valid() && c < 0x100
      modifies vga, this`left, this`right, this`fullX, this`fullY, this`fullColor, this`ticks, this`point
      modifies keyboard`end, keyboard`modifiers, keyboard`history, keyboard.buffer, this`origin, this`base
      modifies current
      ensures Layout() && OnlyInterrupted()
      ensures Window() == Typed(old(Window()), c)
    {
      hide Fired, HalfOf, KeyboardDriver.InOrder, Codes, Delivered, KeysUntil, WithCell;
      if c == NEWLINE {
        current.cursorX := 0;
        Interrupts();
        current.cursorY := current.cursorY + 1;
      } else if c == RETURN {
        current.cursorX := 0;
      } else if c == BACKSPACE {
        Backspace();
      } else if Printable(c) {
        Strike(c);
      }
    }

    method WrapCursor()
      requires Layout()
      modifies vga, this`left, this`right, this`fullX, this`fullY, this`fullColor, this`ticks, this`point
      modifies keyboard`end, keyboard`modifiers, keyboard`history, keyboard.buffer, current
      ensures Layout() && OnlyInterrupted()
      ensures Window() == Wrapped(old(Window()))
    {
      hide Fired, HalfOf, KeyboardDriver.InOrder, Codes, Delivered, KeysUntil;
      Interrupts();
      if current.cursorX >= current.width {
        current.cursorX := 0;
        Interrupts();
        current.cursorY := current.cursorY + 1;
      }
    }

    method ScrollBack()
      requires Layout() && current.cursorY >= current.height
      modifies vga, this`left, this`right, this`fullX, this`fullY, this`fullColor, this`ticks, this`point
      modifies keyboard`end, keyboard`modifiers, keyboard`history, keyboard.buffer, this`origin, this`base
      modifies current
      ensures Layout() && OnlyInterrupted()
      ensures Window() == Scrolled(old(Window()))
    {
      hide Fired, HalfOf, KeyboardDriver.InOrder, Codes, Delivered, KeysUntil, BlankRow;
      Scroll();
      Interrupts();
      current.cursorY := current.height - 1;
    }

    method ScrollPastEnd()
      requires Layout()
      modifies vga, this`left, this`right, this`fullX, this`fullY, this`fullColor, this`ticks, this`point
      modifies keyboard`end, keyboard`modifiers, keyboard`history, keyboard.buffer, this`origin, this`base
      modifies current
      ensures Layout() && OnlyInterrupted()
      ensures Window() == Scrolled(old(Window()))
    {
      hide Fired, HalfOf, KeyboardDriver.InOrder, Codes, Delivered, KeysUntil, BlankRow;
      Interrupts();
      if current.cursorY >= current.height {
        ScrollBack();
      }
      Interrupts();
    }

    method Putchar(c: nat)
      requires Valid() && c < 0x100
      modifies vga, this`left, this`right, this`fullX, this`fullY, this`fullColor, this`ticks, this`point
      modifies keyboard`end, keyboard`modifiers, keyboard`history, keyboard.buffer, this`origin, this`base
      modifies current
      ensures Valid() && OnlyInterrupted()
      ensures Window() == Put(old(Window()), c)
    {
      hide Fired, HalfOf, KeyboardDriver.InOrder, Codes, Delivered, KeysUntil;
      PrintChar(c);
      WrapCursor();
      ScrollPastEnd();
    }

    /** `terminal_puts`: the characters one by one. */
    method Puts(str: string)
      requires Valid() && Bytes(str)
      modifies vga, this`left, this`right, this`fullX, this`fullY, this`fullColor, this`ticks, this`point
      modifies keyboard`end, keyboard`modifiers, keyboard`history, keyboard.buffer, this`origin, this`base
      modifies current
      ensures Valid() && OnlyInterrupted()
      ensures Window() == Windowed(old(Window()), Printing(str))
      ensures Tape.AllPrintable(str) ==> Tape.Stands(old(Window()), str, Window())
    {
      hide Fired, HalfOf, KeyboardDriver.InOrder, Codes, Delivered, KeysUntil, Put, Printing, Tape.Stands;
      ghost var start := Window();
      for i := 0 to |str|
        invariant Valid() && OnlyInterrupted()
        invariant Window() == Windowed(start, Printing(str)[..i])
      {
        PrintOne(start, str, i);
        Putchar(ByteAt(str, i));
      }
      assert Printing(str)[..|str|] == Printing(str);
      if Tape.AllPrintable(str) {
        Tape.TextStands(start, str);
      }
    }

    static lemma NothingPrinted(p: Page, text: string)
      requires IsWindow(p) && Bytes(text)
      ensures Windowed(p, Printing(text)[..0]) == p
    {
    }

    /** Prints a buffer that holds `text` backward. */
    method PutBackward(buf: array<char>, n: nat, ghost text: string)
      requires Valid() && Bytes(text) && n == |text| <= buf.Length
      requires forall j :: 0 <= j < n ==> buf[n - 1 - j] == text[j]
      modifies vga, this`left, this`right, this`fullX, this`fullY, this`fullColor, this`ticks, this`point
      modifies keyboard`end, keyboard`modifiers, keyboard`history, keyboard.buffer, this`origin, this`base
      modifies current
      ensures Valid() && OnlyInterrupted()
      ensures Window() == Windowed(old(Window()), Printing(text))
    {
      hide Fired, HalfOf, KeyboardDriver.InOrder, Codes, Delivered, KeysUntil, Put, Printing, Mirror, Windowed;
      ghost var start := Window();
      NothingPrinted(start, text);
      var i: nat := n;
      ghost var printed: nat := 0;
      while i > 0
        invariant Valid() && OnlyInterrupted() && i + printed == n
        invariant Window() == Windowed(start, Printing(text)[..printed])
      {
        i := i - 1;
        PrintOne(start, text, printed);
        assert buf[i] == text[printed] && buf[i] as nat == ByteAt(text, printed);
        Putchar(buf[i] as nat);
        printed := printed + 1;
      }
      assert Printing(text)[..n] == Printing(text);
    }

    /** `terminal_put_dec` */
    method PutDec(num: u32)
      requires Valid()
      modifies vga, this`left, this`right, this`fullX, this`fullY, this`fullColor, this`ticks, this`point
      modifies keyboard`end, keyboard`modifiers, keyboard`history, keyboard.buffer, this`origin, this`base
      modifies current
      ensures Valid() && OnlyInterrupted()
      ensures Bytes(Digits(num, 10)) && Window() == Windowed(old(Window()), Printing(Digits(num, 10)))
    {
      hide Fired, HalfOf, KeyboardDriver.InOrder, Codes, Delivered, KeysUntil, Put, Printing;
      DigitsAreBytes(num);
      if num == 0 {
        PrintSingle(Window(), '0');
        Putchar('0' as nat);
      } else {
        var buf := new char[11];
        var i := EmitDecimal(num, buf);
        PutBackward(buf, i, Digits(num, 10));
      }
    }

    /** Row `y` and column `x` of the window are this cell of the screen. */
    ghost predicate InBuffer(y: nat, x: nat, cell: Cell)
      reads this, vga, current
    {
      var at := 80 * y + x + if current == gui then 40 else 0;
      at < vga.Length && vga[at] == cell
    }

    lemma RowsAreInBuffer()
      requires Valid()
      ensures forall y, x :: 0 <= y < HEIGHT && 0 <= x < WIDTH ==> InBuffer(y, x, Window().rows[y][x])
    {
      hide HalfOf, Fired, KeyboardDriver.InOrder, Codes, Delivered, KeysUntil;
      forall y, x | 0 <= y < HEIGHT && 0 <= x < WIDTH ensures InBuffer(y, x, Window().rows[y][x]) {
        HalfCell(vga[..], if current == gui then WIDTH else 0, y, x);
      }
    }

    /** Any output, with the timer interrupt anywhere in it. */
    method Output(events: seq<Event>)
      requires Valid()
      modifies vga, this`left, this`right, this`fullX, this`fullY, this`fullColor, this`ticks, this`point
      modifies keyboard`end, keyboard`modifiers, keyboard`history, keyboard.buffer, this`origin, this`base
      modifies current
      ensures Valid() && current == old(current)
      ensures Window() == Windowed(old(Window()), events) == Visible(Unscrolled(old(Window()), events))
      ensures Tape.Reading(Unscrolled(old(Window()), events)) == Tape.Reel(Tape.Reading(old(Window())), events)
      ensures forall y, x :: 0 <= y < HEIGHT && 0 <= x < WIDTH ==> InBuffer(y, x, Window().rows[y][x])
      ensures current == kernel ==> TickedSince(old(Side()), old(point))
      ensures current == gui ==> left == old(left)
      ensures current == kernel && (UpToDate(old(Side())) || TimersBetween(arrivals, old(point), point) >= 18) ==>
                UpToDate(Side())
    {
      hide UpToDate, TimersBetween;
      hide Fired, HalfOf, KeyboardDriver.InOrder, Codes, Delivered, KeysUntil, PutEvent, Mirror, InBuffer, Tape.Reading;
      ghost var (start, side) := (Window(), Side());
      ghost var from := point;
      for i := 0 to |events|
        invariant Valid() && OnlyInterrupted()
        invariant Window() == Windowed(start, events[..i])
      {
        assert events[..i + 1][..i] == events[..i];
        OutputOne(events[i]);
      }
      assert events[..|events|] == events;
      WindowIsLastRows(start, events);
      Tape.TerminalIsTape(start, events);
      RowsAreInBuffer();
      if current == kernel {
        FiredThrough(origin, arrivals, base, from, point);
        if UpToDate(side) || TimersBetween(arrivals, from, point) >= 18 {
          UptimeIsUpToDate(side, arrivals, from, point);
        }
      }
    }

    method OutputOne(e: Event)
      requires Valid()
      modifies vga, this`left, this`right, this`fullX, this`fullY, this`fullColor, this`ticks, this`point
      modifies keyboard`end, keyboard`modifiers, keyboard`history, keyboard.buffer, this`origin, this`base
      modifies current
      ensures Valid() && OnlyInterrupted()
      ensures Window() == PutEvent(old(Window()), e)
    {
      hide Fired, HalfOf, KeyboardDriver.InOrder, Codes, Delivered, KeysUntil, Put;
      match e
      case Print(c) => Putchar(c);
      case Paint(color) => SetColor(color % 16, color / 16);
    }

    /** `sti`: from here on the timer interrupt can come. */
    method EnableInterrupts()
      requires Valid() && current == kernel
      modifies this`enabled
      ensures Valid() && enabled && origin == old(origin) && base == old(base)
    {
      enabled := true;
    }
  }
}
