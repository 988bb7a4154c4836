/**
 The terminal as a tape: one cell behind the other, without rows and without
 an edge. A text stands on it as it was printed; rows of 40 are only how the
 window cuts it up.
 */
module Tape {
  import opened ConsoleModel

  /** The cells in reading order, the place of the cursor, and the colour. */
  datatype Tape = Tape(cells: seq<Cell>, head: nat, color: nat) {
    ghost predicate Ok() {
      head < |cells| && |cells| % WIDTH == 0 && color < 0x100
    }
  }

  /** A line of blanks when the cursor leaves the tape. */
  function Longer(t: Tape): Tape
    requires t.color < 0x100
  {
    if t.head >= |t.cells| then t.(cells := t.cells + BlankRow(t.color)) else t
  }

  /** What a character does to the tape: a printable one only fills the next cell. */
  function Struck(t: Tape, c: nat): Tape
    requires t.Ok() && c < 0x100
  {
    if c == NEWLINE then t.(head := t.head - t.head % WIDTH + WIDTH)
    else if c == RETURN then t.(head := t.head - t.head % WIDTH)
    else if c == BACKSPACE then
      if t.head % WIDTH == 0 then t
      else t.(head := t.head - 1, cells := t.cells[t.head - 1 := Entry(BLANK, t.color)])
    else if Printable(c) then t.(head := t.head + 1, cells := t.cells[t.head := Entry(c, t.color)])
    else t
  }

  function Fed(t: Tape, e: Event): (u: Tape)
    requires t.Ok()
    ensures u.Ok()
  {
    match e
    case Print(c) =>
      StruckStays(t, c);
      Longer(Struck(t, c))
    case Paint(color) => t.(color := color)
  }

  lemma StruckStays(t: Tape, c: nat)
    requires t.Ok() && c < 0x100
    ensures var u := Struck(t, c);
            |u.cells| == |t.cells| && u.head <= |t.cells| && u.color == t.color
  {
  }

  function Reel(t: Tape, events: seq<Event>): (u: Tape)
    requires t.Ok()
    ensures u.Ok()
  {
    if events == [] then t else Fed(Reel(t, events[..|events| - 1]), events[|events| - 1])
  }

  // ---- Rows in reading order ------------------------------------------------------

  ghost predicate Even(rows: seq<Row>) {
    forall r :: r in rows ==> |r| == WIDTH
  }

  function CellAt(rows: seq<Row>, i: nat): Cell
    requires Even(rows) && i < WIDTH * |rows|
  {
    rows[i / WIDTH][i % WIDTH]
  }

  function Flat(rows: seq<Row>): (cells: seq<Cell>)
    requires Even(rows)
    ensures |cells| == WIDTH * |rows|
  {
    seq(WIDTH * |rows|, i requires 0 <= i < WIDTH * |rows| => CellAt(rows, i))
  }

  function Reading(p: Page): (t: Tape)
    requires p.Ok()
    ensures t.Ok()
  {
    Tape(Flat(p.rows), WIDTH * p.y + p.x, p.color)
  }

  lemma Place(y: nat, x: nat)
    requires x < WIDTH
    ensures (WIDTH * y + x) / WIDTH == y && (WIDTH * y + x) % WIDTH == x
  {
  }

  lemma FlatAt(rows: seq<Row>, y: nat, x: nat)
    requires Even(rows) && x < WIDTH && WIDTH * y + x < WIDTH * |rows|
    ensures y < |rows| && Flat(rows)[WIDTH * y + x] == rows[y][x]
  {
    Place(y, x);
  }

  lemma FlatWithCell(rows: seq<Row>, y: nat, x: nat, cell: Cell)
    requires Even(rows) && y < |rows| && x < WIDTH
    ensures Even(WithCell(rows, y, x, cell))
    ensures Flat(WithCell(rows, y, x, cell)) == Flat(rows)[WIDTH * y + x := cell]
  {
    var after := WithCell(rows, y, x, cell);
    Place(y, x);
    assert forall k :: 0 <= k < |rows| && k != y ==> after[k] == rows[k];
    assert forall k :: 0 <= k < WIDTH && k != x ==> after[y][k] == rows[y][k];
    forall i | 0 <= i < WIDTH * |rows| ensures Flat(after)[i] == Flat(rows)[WIDTH * y + x := cell][i] {
      if i / WIDTH == y && i % WIDTH == x {
        assert i == WIDTH * y + x;
      }
    }
  }

  lemma FlatWithRow(rows: seq<Row>, row: Row)
    requires Even(rows) && |row| == WIDTH
    ensures Even(rows + [row]) && Flat(rows + [row]) == Flat(rows) + row
  {
    forall i | 0 <= i < WIDTH * (|rows| + 1) ensures Flat(rows + [row])[i] == (Flat(rows) + row)[i] {
      if i < WIDTH * |rows| {
        assert i / WIDTH < |rows|;
      } else {
        Place(|rows|, i - WIDTH * |rows|);
      }
    }
  }

  // ---- The terminal is the tape, cut into rows --------------------------------------

  lemma TypedIsStruck(p: Page, c: nat)
    requires p.Ok() && c < 0x100
    ensures var (q, u) := (Typed(p, c), Struck(Reading(p), c));
            && Even(q.rows) && |q.rows| == |p.rows| && q.x <= WIDTH && (q.x == WIDTH ==> q.y < |p.rows|)
            && q.y <= |p.rows| && (q.y == |p.rows| ==> q.x == 0)
            && q.color == u.color == p.color
            && Flat(q.rows) == u.cells && WIDTH * q.y + q.x == u.head
  {
    hide Flat, Entry, WithCell;
    Place(p.y, p.x);
    var head := WIDTH * p.y + p.x;
    if c == NEWLINE || c == RETURN {
      assert head - head % WIDTH == WIDTH * p.y;
    } else if c == BACKSPACE {
      if p.x > 0 {
        FlatWithCell(p.rows, p.y, p.x - 1, Entry(BLANK, p.color));
      }
    } else if Printable(c) {
      FlatWithCell(p.rows, p.y, p.x, Entry(c, p.color));
    }
  }

  /** One event does to the terminal what it does to the tape. */
  lemma AppendIsFed(p: Page, e: Event)
    requires p.Ok()
    ensures Reading(AppendEvent(p, e)) == Fed(Reading(p), e)
  {
    hide Flat, Typed, Struck;
    match e
    case Print(c) =>
      TypedIsStruck(p, c);
      var w := Wrapped(Typed(p, c));
      if w.y == |p.rows| {
        FlatWithRow(w.rows, BlankRow(p.color));
      }
    case Paint(color) =>
  }

  /** So does any output. */
  lemma {:induction false} TerminalIsTape(p: Page, events: seq<Event>)
    requires p.Ok()
    ensures Reading(Unscrolled(p, events)) == Reel(Reading(p), events)
  {
    hide Reading, AppendEvent, Fed;
    if events != [] {
      TerminalIsTape(p, events[..|events| - 1]);
      AppendIsFed(Unscrolled(p, events[..|events| - 1]), events[|events| - 1]);
    }
  }

  // ---- Texts ------------------------------------------------------------------------

  /** The cell shows the character in the colour. */
  predicate Holds(w: Page, y: nat, x: nat, c: char, color: nat) {
    && y < |w.rows| && x < |w.rows[y]|
    && w.rows[y][x] % 0x100 == c as nat && w.rows[y][x] / 0x100 == color
  }

  predicate AllPrintable(s: string) {
    forall c :: c in s ==> Printable(c as nat)
  }

  /** A text stands on the tape `u` from where the cursor was on `t`, in a row, and the cursor behind it. */
  ghost predicate OnTape(t: Tape, s: string, u: Tape) {
    && u.head == t.head + |s| && u.color == t.color && t.head < |t.cells|
    && |u.cells| == (if u.head < |t.cells| then |t.cells| else u.head - u.head % WIDTH + WIDTH)
    && (forall i :: 0 <= i < |s| ==> CharOnTape(t, s, u, i))
    && (forall k :: 0 <= k < t.head ==> KeptOnTape(t, u, k))
  }

  predicate CharOnTape(t: Tape, s: string, u: Tape, i: nat) {
    i < |s| && t.head + i < |u.cells| && u.cells[t.head + i] % 0x100 == s[i] as nat
        && u.cells[t.head + i] / 0x100 == t.color
  }

  predicate KeptOnTape(t: Tape, u: Tape, k: nat) {
    k < |t.cells| && k < |u.cells| && u.cells[k] == t.cells[k]
  }

  lemma OneMoreOnTape(t: Tape, front: string, u: Tape, c: char)
    requires t.Ok() && u.Ok() && OnTape(t, front, u) && Printable(c as nat)
    ensures OnTape(t, front + [c], Fed(u, Print(c as nat)))
  {
    var (s, w) := (front + [c], Fed(u, Print(c as nat)));
    forall i | 0 <= i < |s| ensures CharOnTape(t, s, w, i) {
      assert i < |front| ==> CharOnTape(t, front, u, i);
    }
    forall k | 0 <= k < t.head ensures KeptOnTape(t, w, k) {
      assert KeptOnTape(t, u, k);
    }
  }

  lemma {:induction false} TextOnTape(t: Tape, s: string)
    requires t.Ok() && AllPrintable(s)
    ensures Bytes(s) && OnTape(t, s, Reel(t, Printing(s)))
    decreases |s|
  {
    hide Fed;
    if s == "" {
      assert Printing(s) == [];
    } else {
      var (front, c) := (s[..|s| - 1], s[|s| - 1]);
      assert c in s;
      assert forall d :: d in front ==> d in s;
      TextOnTape(t, front);
      LastPrinted(s);
      OneMoreOnTape(t, front, Reel(t, Printing(front)), c);
      assert front + [c] == s;
    }
  }

  lemma LastPrinted(s: string)
    requires Bytes(s) && s != ""
    ensures Bytes(s[..|s| - 1]) && s[|s| - 1] as nat < 0x100
    ensures Printing(s)[..|s| - 1] == Printing(s[..|s| - 1]) && Printing(s)[|s| - 1] == Print(s[|s| - 1] as nat)
  {
    assert s[|s| - 1] in s;
    var front := s[..|s| - 1];
    assert forall d :: d in front ==> d in s;
    assert Printing(s)[..|front|] == Printing(front);
  }

  /** The rows that have gone out of a window whose cursor has come to row `y`, counted from its first one. */
  function Gone(y: nat): nat {
    if y < HEIGHT then 0 else y - (HEIGHT - 1)
  }

  /** What a window shows of a text printed from `p`: character `i` stands `i` places behind the cursor, in rows of 40,
      as far as it has not been scrolled out; and so does all that stood in front of the cursor. */
  ghost predicate Stands(p: Page, s: string, w: Page) {
    var end := p.x + |s|;
    var gone := Gone(p.y + end / WIDTH);
    && IsWindow(p) && IsWindow(w) && w.color == p.color
    && w.x == end % WIDTH && w.y == p.y + end / WIDTH - gone
    && (forall i :: 0 <= i < |s| && gone <= p.y + (p.x + i) / WIDTH ==> CharStands(p, s, w, gone, i))
    && (forall y, x :: gone <= y <= p.y && 0 <= x < (if y < p.y then WIDTH else p.x) ==> StillThere(p, w, gone, y, x))
  }

  predicate CharStands(p: Page, s: string, w: Page, gone: nat, i: nat) {
    var (y, x) := (p.y + (p.x + i) / WIDTH - gone, (p.x + i) % WIDTH);
    i < |s| && 0 <= y && Holds(w, y, x, s[i], p.color)
  }

  predicate StillThere(p: Page, w: Page, gone: nat, y: nat, x: nat) {
    && y < |p.rows| && x < |p.rows[y]| && gone <= y && y - gone < |w.rows| && x < |w.rows[y - gone]|
    && w.rows[y - gone][x] == p.rows[y][x]
  }

  lemma TapeInRows(p: Page, s: string, q: Page)
    requires IsWindow(p) && q.Ok() && OnTape(Reading(p), s, Reading(q))
    ensures var gone := Gone(p.y + (p.x + |s|) / WIDTH);
            |q.rows| == HEIGHT + gone && q.color == p.color && q.x == (p.x + |s|) % WIDTH
                && q.y == p.y + (p.x + |s|) / WIDTH
  {
    hide Flat;
    Place(q.y, q.x);
    assert WIDTH * q.y + q.x == WIDTH * p.y + (p.x + |s|);
    Place(p.y + (p.x + |s|) / WIDTH, (p.x + |s|) % WIDTH);
  }

  lemma CharAtRow(p: Page, s: string, q: Page, i: nat, y: nat, x: nat)
    requires IsWindow(p) && q.Ok() && OnTape(Reading(p), s, Reading(q)) && i < |s|
    requires x < WIDTH && WIDTH * y + x == WIDTH * p.y + p.x + i
    ensures y < |q.rows| && |q.rows[y]| == WIDTH
    ensures q.rows[y][x] % 0x100 == s[i] as nat && q.rows[y][x] / 0x100 == p.color
  {
    hide Flat;
    assert CharOnTape(Reading(p), s, Reading(q), i);
    FlatAt(q.rows, y, x);
  }

  lemma CharInRows(p: Page, s: string, q: Page, i: nat)
    requires IsWindow(p) && q.Ok() && OnTape(Reading(p), s, Reading(q)) && i < |s|
    requires |q.rows| - HEIGHT <= p.y + (p.x + i) / WIDTH
    ensures CharStands(p, s, Visible(q), |q.rows| - HEIGHT, i)
  {
    hide Reading, OnTape;
    var (y, x) := (p.y + (p.x + i) / WIDTH, (p.x + i) % WIDTH);
    CharAtRow(p, s, q, i, y, x);
    assert Visible(q).rows[y - (|q.rows| - HEIGHT)] == q.rows[y];
  }

  lemma KeptAtRow(p: Page, s: string, q: Page, y: nat, x: nat)
    requires IsWindow(p) && q.Ok() && OnTape(Reading(p), s, Reading(q))
    requires y <= p.y && x < WIDTH && WIDTH * y + x < WIDTH * p.y + p.x
    ensures y < |q.rows| && |q.rows[y]| == WIDTH && q.rows[y][x] == p.rows[y][x]
  {
    hide Flat;
    assert KeptOnTape(Reading(p), Reading(q), WIDTH * y + x);
    FlatAt(p.rows, y, x);
    FlatAt(q.rows, y, x);
  }

  lemma KeptInRows(p: Page, s: string, q: Page, y: nat, x: nat)
    requires IsWindow(p) && q.Ok() && OnTape(Reading(p), s, Reading(q))
    requires |q.rows| - HEIGHT <= y <= p.y && x < (if y < p.y then WIDTH else p.x)
    ensures StillThere(p, Visible(q), |q.rows| - HEIGHT, y, x)
  {
    hide Reading, OnTape;
    KeptAtRow(p, s, q, y, x);
    assert Visible(q).rows[y - (|q.rows| - HEIGHT)] == q.rows[y];
  }

  lemma RowsStand(p: Page, s: string, q: Page)
    requires IsWindow(p) && q.Ok() && OnTape(Reading(p), s, Reading(q))
    ensures Stands(p, s, Visible(q))
  {
    hide Reading, OnTape, Visible, CharStands, StillThere;
    VisibleIsWindow(q);
    VisibleCursor(q);
    TapeInRows(p, s, q);
    var gone := |q.rows| - HEIGHT;
    forall i | 0 <= i < |s| && gone <= p.y + (p.x + i) / WIDTH ensures CharStands(p, s, Visible(q), gone, i) {
      CharInRows(p, s, q, i);
    }
    forall y, x | gone <= y <= p.y && 0 <= x < (if y < p.y then WIDTH else p.x)
      ensures StillThere(p, Visible(q), gone, y, x)
    {
      KeptInRows(p, s, q, y, x);
    }
  }

  /** Every printable text, of any length and from any place: where its characters stand, what they left alone, and
      where
      the cursor is. */
  lemma TextStands(p: Page, s: string)
    requires IsWindow(p) && AllPrintable(s)
    ensures Bytes(s) && Stands(p, s, Windowed(p, Printing(s)))
  {
    hide Reel, Reading, OnTape, Visible, Printing, Unscrolled, Windowed, Stands;
    TextOnTape(Reading(p), s);
    TerminalIsTape(p, Printing(s));
    WindowIsLastRows(p, Printing(s));
    RowsStand(p, s, Unscrolled(p, Printing(s)));
  }

  lemma VisibleCursor(q: Page)
    requires q.Ok()
    ensures var v := Visible(q); v.x == q.x && v.y == q.y - (|q.rows| - HEIGHT) && v.color == q.color
  {
  }
}
