/**
 The text window as a value, and the terminal it stands for: one that never
 scrolls and keeps every row.
 */
module ConsoleModel {
  import opened Machine

  const WIDTH: nat := 40
  const HEIGHT: nat := 25

  type Cell = x: int | 0 <= x < 0x1_0000
  type Row = seq<Cell>

  /** `vga_entry`: the character in the low byte, the colour in the high byte. */
  function Entry(c: nat, color: nat): (cell: Cell)
    requires c < 0x100 && color < 0x100
    ensures cell % 0x100 == c && cell / 0x100 == color
  {
    c + color * 0x100
  }

  const BLANK: nat := 32
  const NEWLINE: nat := 10
  const RETURN: nat := 13
  const BACKSPACE: nat := 8

  /** A `char` is signed: bytes from 128 on compare less than a blank. */
  predicate Printable(c: nat) {
    BLANK <= c < 128
  }

  function BlankRow(color: nat): (r: Row)
    requires color < 0x100
    ensures |r| == WIDTH
  {
    seq(WIDTH, _ => Entry(BLANK, color))
  }

  /** Rows with a cursor; `y` counts from the first of `rows`. */
  datatype Page = Page(rows: seq<Row>, x: nat, y: nat, color: nat) {
    ghost predicate Ok() {
      && HEIGHT <= |rows| && (forall r :: r in rows ==> |r| == WIDTH)
      && x < WIDTH && |rows| - HEIGHT <= y < |rows| && color < 0x100
    }
  }

  function WithCell(rows: seq<Row>, y: nat, x: nat, cell: Cell): (r: seq<Row>)
    requires y < |rows| && x < |rows[y]|
    ensures |r| == |rows| && forall i :: 0 <= i < |r| ==> |r[i]| == |rows[i]|
  {
    var row: Row := rows[y][..x] + [cell] + rows[y][x + 1..];
    rows[y := row]
  }

  /** The effect of a character before wrapping. */
  function Typed(p: Page, c: nat): Page
    requires p.y < |p.rows| && p.x < |p.rows[p.y]| && p.color < 0x100 && c < 0x100
  {
    if c == NEWLINE then p.(x := 0, y := p.y + 1)
    else if c == RETURN then p.(x := 0)
    else if c == BACKSPACE then
      if p.x > 0 then p.(x := p.x - 1, rows := WithCell(p.rows, p.y, p.x - 1, Entry(BLANK, p.color))) else p
    else if Printable(c) then p.(rows := WithCell(p.rows, p.y, p.x, Entry(c, p.color)), x := p.x + 1)
    else p
  }

  function Wrapped(p: Page): Page {
    if p.x >= WIDTH then p.(x := 0, y := p.y + 1) else p
  }

  // ---- The terminal that never scrolls ---------------------------------------

  /** A new row of blanks when the cursor leaves the last one. */
  function Extended(p: Page): Page
    requires p.color < 0x100
  {
    if p.y >= |p.rows| then p.(rows := p.rows + [BlankRow(p.color)]) else p
  }

  function Append(p: Page, c: nat): (q: Page)
    requires p.Ok() && c < 0x100
    ensures q.Ok()
  {
    Extended(Wrapped(Typed(p, c)))
  }

  // ---- The window of 25 rows --------------------------------------------------

  /** The top row goes, a row of blanks comes in at the bottom. */
  function Scrolled(p: Page): Page
    requires p.color < 0x100 && p.rows != []
  {
    if p.y >= HEIGHT then p.(rows := p.rows[1..] + [BlankRow(p.color)], y := HEIGHT - 1) else p
  }

  ghost predicate IsWindow(p: Page) {
    p.Ok() && |p.rows| == HEIGHT
  }

  function Put(p: Page, c: nat): (q: Page)
    requires p.Ok() && |p.rows| == HEIGHT && c < 0x100
    ensures IsWindow(q)
  {
    Scrolled(Wrapped(Typed(p, c)))
  }

  // ---- Refinement --------------------------------------------------------------

  datatype Event = Print(c: byte) | Paint(color: byte)

  function AppendEvent(p: Page, e: Event): (q: Page)
    requires p.Ok()
    ensures q.Ok()
  {
    match e
    case Print(c) => Append(p, c)
    case Paint(color) => p.(color := color)
  }

  function PutEvent(p: Page, e: Event): (q: Page)
    requires p.Ok() && |p.rows| == HEIGHT
    ensures IsWindow(q)
  {
    match e
    case Print(c) => Put(p, c)
    case Paint(color) => p.(color := color)
  }

  function Unscrolled(p: Page, events: seq<Event>): (q: Page)
    requires p.Ok()
    ensures q.Ok()
  {
    if events == [] then p else AppendEvent(Unscrolled(p, events[..|events| - 1]), events[|events| - 1])
  }

  function Windowed(p: Page, events: seq<Event>): (q: Page)
    requires p.Ok() && |p.rows| == HEIGHT
    ensures IsWindow(q)
  {
    if events == [] then p else PutEvent(Windowed(p, events[..|events| - 1]), events[|events| - 1])
  }

  /** The page from row `k` on. */
  function From(p: Page, k: nat): Page
    requires k <= |p.rows| && k <= p.y
  {
    Page(p.rows[k..], p.x, p.y - k, p.color)
  }

  /** The last 25 rows. */
  function Visible(p: Page): Page
    requires p.Ok()
  {
    From(p, |p.rows| - HEIGHT)
  }

  lemma TypedFrom(p: Page, k: nat, c: nat)
    requires p.Ok() && k <= p.y && c < 0x100
    ensures |Typed(p, c).rows| == |p.rows| && k <= Typed(p, c).y
    ensures Typed(From(p, k), c) == From(Typed(p, c), k)
  {
    assert From(p, k).rows[p.y - k] == p.rows[p.y];
  }

  /** Scrolling the window is extending the terminal and looking one row further down. */
  lemma ScrolledFrom(p: Page, k: nat)
    requires k + HEIGHT == |p.rows| && k <= p.y <= |p.rows| && p.color < 0x100
    ensures var q := Extended(p);
            |q.rows| - HEIGHT <= q.y && Scrolled(From(p, k)) == From(q, |q.rows| - HEIGHT)
  {
    if p.y == |p.rows| {
      assert (p.rows + [BlankRow(p.color)])[k + 1..] == p.rows[k..][1..] + [BlankRow(p.color)];
    }
  }

  lemma VisibleIsWindow(p: Page)
    requires p.Ok()
    ensures IsWindow(Visible(p))
  {
    var k := |p.rows| - HEIGHT;
    assert forall r :: r in p.rows[k..] ==> r in p.rows;
  }

  lemma WrappedFrom(p: Page, k: nat)
    requires k <= |p.rows| && k <= p.y
    ensures Wrapped(From(p, k)) == From(Wrapped(p), k)
  {
  }

  lemma WrappedBounds(p: Page, c: nat)
    requires p.Ok() && c < 0x100
    ensures var w := Wrapped(Typed(p, c));
            |w.rows| == |p.rows| && p.y <= w.y <= |p.rows| && w.color == p.color && |Typed(p, c).rows| == |p.rows|
  {
  }

  lemma PutIsAppendChar(p: Page, c: nat)
    requires p.Ok() && c < 0x100 && Visible(p).Ok() && |Visible(p).rows| == HEIGHT
    ensures Put(Visible(p), c) == Visible(Append(p, c))
  {
    hide Typed, Wrapped, Scrolled, Extended;
    var k := |p.rows| - HEIGHT;
    WrappedBounds(p, c);
    TypedFrom(p, k, c);
    WrappedFrom(Typed(p, c), k);
    ScrolledFrom(Wrapped(Typed(p, c)), k);
  }

  /** One event keeps the window equal to the last 25 rows. */
  lemma PutIsAppend(p: Page, e: Event)
    requires p.Ok()
    ensures IsWindow(Visible(p)) && PutEvent(Visible(p), e) == Visible(AppendEvent(p, e))
  {
    VisibleIsWindow(p);
    match e
    case Print(c) => PutIsAppendChar(p, c);
    case Paint(color) =>
  }

  /** After any output a window shows the last 25 rows of the terminal that never scrolled. */
  lemma {:induction false} WindowIsLastRows(p: Page, events: seq<Event>)
    requires IsWindow(p)
    ensures Windowed(p, events) == Visible(Unscrolled(p, events))
  {
    if events == [] {
      assert p.rows[0..] == p.rows;
    } else {
      WindowIsLastRows(p, events[..|events| - 1]);
      PutIsAppend(Unscrolled(p, events[..|events| - 1]), events[|events| - 1]);
    }
  }

  // ---- Texts as output ---------------------------------------------------------

  /** Every character is one byte. */
  predicate Bytes(str: string) {
    forall c :: c in str ==> c as nat < 0x100
  }

  function ByteAt(str: string, i: nat): (b: byte)
    requires Bytes(str) && i < |str|
    ensures b == str[i] as nat
  {
    assert str[i] in str;
    str[i] as nat
  }

  /** The events of printing a text. */
  function Printing(str: string): (events: seq<Event>)
    requires Bytes(str)
    ensures |events| == |str|
  {
    seq(|str|, i requires 0 <= i < |str| => Print(ByteAt(str, i)))
  }

  /** The window after one more character of a text. */
  lemma PrintOne(p: Page, str: string, i: nat)
    requires IsWindow(p) && Bytes(str) && i < |str|
    ensures Windowed(p, Printing(str)[..i + 1]) == Put(Windowed(p, Printing(str)[..i]), ByteAt(str, i))
  {
    hide Put;
    assert Printing(str)[..i + 1][..i] == Printing(str)[..i];
  }

  /** The window after a text: its front, then its last character. */
  lemma PrintLast(p: Page, s: string)
    requires IsWindow(p) && Bytes(s) && s != ""
    ensures Bytes(s[..|s| - 1]) && s[|s| - 1] as nat < 0x100
    ensures Windowed(p, Printing(s)) == Put(Windowed(p, Printing(s[..|s| - 1])), s[|s| - 1] as nat)
  {
    hide Put;
    var front := s[..|s| - 1];
    assert forall c :: c in front ==> c in s;
    PrintOne(p, s, |s| - 1);
    assert Printing(s)[..|s|] == Printing(s) && Printing(s)[..|s| - 1] == Printing(front);
  }

  lemma PrintAppend(p: Page, s: string, c: char)
    requires IsWindow(p) && Bytes(s) && c as nat < 0x100
    ensures Bytes(s + [c]) && Windowed(p, Printing(s + [c])) == Put(Windowed(p, Printing(s)), c as nat)
  {
    hide Put, Printing;
    assert (s + [c])[..|s|] == s;
    PrintLast(p, s + [c]);
  }

  lemma PrintSingle(p: Page, c: char)
    requires IsWindow(p) && c as nat < 0x100
    ensures Bytes([c]) && Windowed(p, Printing([c])) == Put(p, c as nat)
  {
    PrintOne(p, [c], 0);
    assert Printing([c])[..1] == Printing([c]);
  }

  lemma {:induction false} WindowedThrough(p: Page, events: seq<Event>, more: seq<Event>)
    requires IsWindow(p)
    ensures Windowed(p, events + more) == Windowed(Windowed(p, events), more)
    decreases |more|
  {
    if more == [] {
      assert events + more == events;
    } else {
      var front := more[..|more| - 1];
      assert (events + more)[..|events + more| - 1] == events + front;
      WindowedThrough(p, events, front);
    }
  }

  lemma PrintingJoined(s: string, t: string)
    requires Bytes(s) && Bytes(t)
    ensures Bytes(s + t) && Printing(s + t) == Printing(s) + Printing(t)
  {
  }
}
