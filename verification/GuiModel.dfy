/**
 What the timer interrupt draws: three lines of the right half of the screen.
 */
module GuiModel {
  import opened Machine
  import opened Numbers
  import opened ConsoleModel

  /** `fg | (bg << 4)` */
  function Color(fg: nat, bg: nat): (color: byte)
    requires fg < 16 && bg < 16
    ensures color % 16 == fg && color / 16 == bg
  {
    fg + 16 * bg
  }

  const BLACK: nat := 0
  const BLUE: nat := 1
  const LIGHT_CYAN: nat := 11
  const WHITE: nat := 15

  const TIME_ROW: nat := 3
  const MEMORY_ROW: nat := 5
  const UPTIME_ROW: nat := 7

  const TICKS_PER_DRAWING: nat := 18
  const HEAP_KB: nat := 64

  /** A field of the clock: two BCD digits. */
  type ClockField = x: int | 0 <= x < 100

  /** A total over the block list, at most what any moment of `kmalloc` and `kfree` can show. */
  type HeapTotal = x: int | 0 <= x <= READING_MAX

  /** What a timer interrupt finds: the clock, and the free bytes of the heap at that moment. */
  datatype Arrival = Arrival(hour: ClockField, minute: ClockField, second: ClockField, free: HeapTotal)

  // ---- Texts --------------------------------------------------------------------

  function Padded(n: nat): string {
    (if n < 10 then "0" else "") + Digits(n, 10)
  }

  function ClockText(hour: nat, minute: nat, second: nat): string {
    Padded(hour) + ":" + Padded(minute) + ":" + Padded(second)
  }

  function TimeText(a: Arrival): string {
    "Time: " + ClockText(a.hour, a.minute, a.second)
  }

  function MemoryText(a: Arrival): string {
    "Mem: " + Digits(a.free / 1024, 10) + "/" + Digits(HEAP_KB, 10) + " KB free"
  }

  function UptimeText(ticks: u32): string {
    var uptime: nat := ticks / TICKS_PER_DRAWING;
    "Uptime: " + ClockText(uptime / 3600, uptime % 3600 / 60, uptime % 60)
  }

  /** Drawn with the cursor: printable characters only. */
  predicate Plain(text: string) {
    forall c :: c in text ==> Printable(c as nat)
  }

  lemma DigitsArePlain(n: nat)
    ensures Plain(Digits(n, 10))
  {
    DigitsHaveValue(n, 10);
    forall c | c in Digits(n, 10) ensures Printable(c as nat) {
      assert DigitValue(c) < 10;
    }
  }

  lemma Powers()
    ensures Power10(2) == 100 && Power10(3) == 1000 && Power10(5) == 100_000 && Power10(10) == 10_000_000_000
  {
    assert Power10(5) == 10 * 10 * 10 * Power10(2);
    assert Power10(10) == 10 * 10 * 10 * 10 * 10 * Power10(5);
  }

  /** Below 100 a padded field has two characters, below 100000 at most five. */
  lemma PaddedIsPlain(n: nat)
    requires n < 100_000
    ensures Plain(Padded(n)) && |Padded(n)| <= 5
    ensures n < 100 ==> |Padded(n)| == 2
  {
    Powers();
    DigitsArePlain(n);
    DigitCount(n, 5);
    DigitCount(n, 2);
    DigitCount(n, 1);
    assert Power10(1) == 10 * Power10(0);
  }

  lemma ClockIsPlain(hour: nat, minute: nat, second: nat)
    requires hour < 100_000 && minute < 100 && second < 100
    ensures Plain(ClockText(hour, minute, second)) && |ClockText(hour, minute, second)| <= 11
    ensures hour < 100 ==> |ClockText(hour, minute, second)| == 8
  {
    PaddedIsPlain(hour);
    PaddedIsPlain(minute);
    PaddedIsPlain(second);
  }

  /** Every text fits its row, from the second column on. */
  lemma TextsFit(a: Arrival, ticks: u32)
    ensures Plain(TimeText(a)) && |TimeText(a)| == 14
    ensures Plain(MemoryText(a)) && |MemoryText(a)| <= 19
    ensures Plain(UptimeText(ticks)) && |UptimeText(ticks)| <= 19
  {
    ClockIsPlain(a.hour, a.minute, a.second);
    Powers();
    DigitsArePlain(a.free / 1024);
    DigitCount(a.free / 1024, 3);
    DigitsArePlain(HEAP_KB);
    DigitCount(HEAP_KB, 2);
    var uptime: nat := ticks / TICKS_PER_DRAWING;
    ClockIsPlain(uptime / 3600, uptime % 3600 / 60, uptime % 60);
  }

  /** The uptime clock shows the elapsed seconds, with minutes and seconds below 60. */
  lemma UptimeIsElapsed(ticks: u32)
    ensures var uptime := ticks / TICKS_PER_DRAWING;
            var (h, m, s) := (uptime / 3600, uptime % 3600 / 60, uptime % 60);
            h * 3600 + m * 60 + s == uptime && m < 60 && s < 60
  {
    var uptime := ticks / TICKS_PER_DRAWING;
    assert uptime % 3600 % 60 == uptime % 60;
  }

  // ---- Reading the texts back ---------------------------------------------------

  /** Decimal digits of the value `n`. */
  predicate Reads(s: string, n: nat) {
    s != "" && (forall c :: c in s ==> '0' <= c <= '9') && Value(s, 10) == n
  }

  /** Hours, minutes and seconds, the last two in two digits each, with colons between them. */
  predicate ReadsClock(s: string, hour: nat, minute: nat, second: nat) {
    |s| >= 8 &&
    var k := |s| - 6;
    && s[k] == ':' && s[k + 3] == ':'
    && Reads(s[..k], hour) && Reads(s[k + 1..k + 3], minute) && Reads(s[k + 4..], second)
  }

  /** A clock that shows so many seconds. */
  ghost predicate ReadsSeconds(s: string, seconds: nat) {
    exists h: nat, m: nat, n: nat :: ReadsClock(s, h, m, n) && m < 60 && n < 60 && h * 3600 + m * 60 + n == seconds
  }

  lemma DigitsRead(n: nat)
    ensures Reads(Digits(n, 10), n)
  {
    DigitsHaveValue(n, 10);
    forall c | c in Digits(n, 10) ensures '0' <= c <= '9' {
      assert DigitValue(c) < 10;
    }
  }

  lemma ZeroInFront(d: string)
    requires |d| == 1
    ensures Value("0" + d, 10) == Value(d, 10)
  {
    assert ("0" + d)[..1] == "0" && "0"[..0] == "" && d[..0] == "";
    assert Value("0", 10) == 0;
  }

  /** A padded field is read as its number, and has two digits below 100. */
  lemma PaddedReads(n: nat)
    requires n < 100_000
    ensures Reads(Padded(n), n) && |Padded(n)| >= 2 && (n < 100 ==> |Padded(n)| == 2)
  {
    PaddedIsPlain(n);
    DigitsRead(n);
    Powers();
    DigitCount(n, 1);
    assert Power10(1) == 10 * Power10(0);
    if n < 10 {
      ZeroInFront(Digits(n, 10));
    } else {
      assert Padded(n) == Digits(n, 10);
    }
  }

  lemma ClockReads(hour: nat, minute: nat, second: nat)
    requires hour < 100_000 && minute < 100 && second < 100
    ensures ReadsClock(ClockText(hour, minute, second), hour, minute, second)
  {
    hide Padded, Reads;
    PaddedReads(hour);
    PaddedReads(minute);
    PaddedReads(second);
    var s := ClockText(hour, minute, second);
    var k := |s| - 6;
    assert k == |Padded(hour)|;
    assert s[..k] == Padded(hour) && s[k + 1..k + 3] == Padded(minute) && s[k + 4..] == Padded(second);
  }

  lemma UptimeReads(ticks: u32)
    ensures var s := UptimeText(ticks);
            |s| >= 16 && s[..8] == "Uptime: " && ReadsSeconds(s[8..], ticks / 18)
  {
    hide ReadsClock, ClockText;
    var uptime: nat := ticks / 18;
    UptimeIsElapsed(ticks);
    ClockReads(uptime / 3600, uptime % 3600 / 60, uptime % 60);
    var s := UptimeText(ticks);
    assert s == "Uptime: " + ClockText(uptime / 3600, uptime % 3600 / 60, uptime % 60);
    assert s[8..] == ClockText(uptime / 3600, uptime % 3600 / 60, uptime % 60);
    ReadsLength(s[8..], uptime / 3600, uptime % 3600 / 60, uptime % 60);
  }

  lemma ReadsLength(s: string, hour: nat, minute: nat, second: nat)
    requires ReadsClock(s, hour, minute, second)
    ensures |s| >= 8
  {
  }

  lemma TimeReads(a: Arrival)
    ensures var s := TimeText(a);
            |s| == 14 && s[..6] == "Time: " && ReadsClock(s[6..], a.hour, a.minute, a.second)
  {
    hide ReadsClock, ClockText;
    ClockReads(a.hour, a.minute, a.second);
    ClockIsPlain(a.hour, a.minute, a.second);
    assert TimeText(a)[6..] == ClockText(a.hour, a.minute, a.second);
  }

  /** The free memory in whole kilobytes, of 64. */
  ghost predicate ReadsMemory(s: string, free: nat) {
    exists digits: string, kb: nat ::
      s == "Mem: " + digits + "/64 KB free" && Reads(digits, kb) && kb * 1024 <= free < (kb + 1) * 1024
  }

  lemma MemoryReads(a: Arrival)
    ensures ReadsMemory(MemoryText(a), a.free)
  {
    hide Reads;
    DigitsRead(a.free / 1024);
    SixtyFour();
    var digits := Digits(a.free / 1024, 10);
    assert MemoryText(a) == "Mem: " + digits + "/64 KB free";
  }

  lemma SixtyFour()
    ensures Digits(64, 10) == "64"
  {
    assert Digits(6, 10) == "6";
  }

  // ---- Lines --------------------------------------------------------------------

  function CellUnder(row: Row, at: nat, text: string, color: byte, i: nat): (cell: Cell)
    requires at + |text| <= |row| && Plain(text) && i < |row|
  {
    if at <= i < at + |text| then
      assert text[i - at] in text;
      Entry(text[i - at] as nat, color)
    else row[i]
  }

  /** `text` written over a row from column `at`. */
  function Overwritten(row: Row, at: nat, text: string, color: byte): (r: Row)
    requires at + |text| <= |row| && Plain(text)
    ensures |r| == |row|
  {
    seq(|row|, i requires 0 <= i < |row| => CellUnder(row, at, text, color, i))
  }

  /** A cleared row with a text from its second column. */
  function Line(text: string, clear: byte, color: byte): (r: Row)
    requires |text| < WIDTH && Plain(text)
    ensures |r| == WIDTH
  {
    Overwritten(BlankRow(clear), 1, text, color)
  }

  /** The right half of the screen, the fullscreen cursor and colour, and the tick count. */
  datatype Gui = Gui(right: seq<Row>, x: nat, y: nat, color: byte, ticks: u32) {
    ghost predicate Ok() {
      |right| == HEIGHT && forall r :: r in right ==> |r| == WIDTH
    }
  }

  function NextTick(ticks: u32): u32 {
    if ticks + 1 == U32_LIMIT then 0 else ticks + 1
  }

  predicate Draws(ticks: u32) {
    ticks % TICKS_PER_DRAWING == 0
  }

  function DrawnTime(g: Gui, a: Arrival): Gui
    requires g.Ok()
  {
    TextsFit(a, g.ticks);
    var (white, cyan) := (Color(WHITE, BLACK), Color(LIGHT_CYAN, BLACK));
    g.(right := g.right[TIME_ROW := Line(TimeText(a), white, cyan)], x := 41 + |TimeText(a)|, y := TIME_ROW,
       color := cyan)
  }

  function DrawnMemory(g: Gui, a: Arrival): Gui
    requires g.Ok()
  {
    TextsFit(a, g.ticks);
    var blue := Color(WHITE, BLUE);
    g.(right := g.right[MEMORY_ROW := Line(MemoryText(a), blue, blue)], x := 41 + |MemoryText(a)|, y := MEMORY_ROW,
       color := blue)
  }

  function DrawnUptime(g: Gui): Gui
    requires g.Ok()
  {
    TextsFit(Arrival(0, 0, 0, 0), g.ticks);
    var blue := Color(WHITE, BLUE);
    g.(right := g.right[UPTIME_ROW := Line(UptimeText(g.ticks), blue, blue)], x := 41 + |UptimeText(g.ticks)|,
       y := UPTIME_ROW, color := blue)
  }

  /** One timer interrupt. */
  function Tick(g: Gui, a: Arrival): (t: Gui)
    requires g.Ok()
    ensures t.Ok() && t.ticks == NextTick(g.ticks)
  {
    var counted := g.(ticks := NextTick(g.ticks));
    if Draws(counted.ticks) then DrawnUptime(DrawnMemory(DrawnTime(counted, a), a)) else counted
  }

  predicate IsDrawn(y: nat) {
    y == TIME_ROW || y == MEMORY_ROW || y == UPTIME_ROW
  }

  lemma TickKeepsOtherRows(g: Gui, a: Arrival, y: nat)
    requires g.Ok() && y < HEIGHT && !IsDrawn(y)
    ensures Tick(g, a).right[y] == g.right[y]
  {
    hide Line, TimeText, MemoryText, UptimeText, BlankRow;
  }

  /** What can interrupt the kernel. */
  datatype Interrupt = Timer(moment: Arrival) | Keystroke(code: byte)

  /** What a burst of interrupts makes of the panel: key strokes do not touch it. */
  function Handled(g: Gui, interrupts: seq<Interrupt>): (t: Gui)
    requires g.Ok()
    ensures t.Ok()
  {
    if interrupts == [] then g
    else
      var before := Handled(g, interrupts[..|interrupts| - 1]);
      match interrupts[|interrupts| - 1]
      case Timer(a) => Tick(before, a)
      case Keystroke(_) => before
  }

  /** The scancodes of a burst. */
  function KeysOf(interrupts: seq<Interrupt>): seq<byte> {
    if interrupts == [] then []
    else
      KeysOf(interrupts[..|interrupts| - 1])
      + match interrupts[|interrupts| - 1] { case Timer(_) => [] case Keystroke(code) => [code] }
  }

  lemma HandledOneMore(g: Gui, interrupts: seq<Interrupt>, i: nat)
    requires g.Ok() && i < |interrupts|
    ensures var before := Handled(g, interrupts[..i]);
            Handled(g, interrupts[..i + 1]) ==
            match interrupts[i] { case Timer(a) => Tick(before, a) case Keystroke(_) => before }
    ensures KeysOf(interrupts[..i + 1]) ==
            KeysOf(interrupts[..i]) + match interrupts[i] { case Timer(_) => [] case Keystroke(code) => [code] }
  {
    assert interrupts[..i + 1][..i] == interrupts[..i];
  }

  /** Which interrupts come at each point where one can: any number, in any order. */
  type Schedule = nat -> seq<Interrupt>

  /** The interrupts at the points from `from` on, before `until`. */
  function Fired(g: Gui, arrivals: Schedule, from: nat, until: nat): (t: Gui)
    requires g.Ok() && from <= until
    ensures t.Ok()
    decreases until
  {
    if from == until then g else Handled(Fired(g, arrivals, from, until - 1), arrivals(until - 1))
  }

  lemma FiredOnce(g: Gui, arrivals: Schedule, from: nat, until: nat)
    requires g.Ok() && from <= until
    ensures Fired(g, arrivals, from, until + 1) == Handled(Fired(g, arrivals, from, until), arrivals(until))
  {
  }

  lemma {:induction false} FiredThrough(g: Gui, arrivals: Schedule, from: nat, mid: nat, until: nat)
    requires g.Ok() && from <= mid <= until
    ensures Fired(Fired(g, arrivals, from, mid), arrivals, mid, until) == Fired(g, arrivals, from, until)
    decreases until
  {
    if mid < until {
      FiredThrough(g, arrivals, from, mid, until - 1);
    }
  }

  lemma {:induction false} HandledKeepsOtherRows(g: Gui, interrupts: seq<Interrupt>, y: nat)
    requires g.Ok() && y < HEIGHT && !IsDrawn(y)
    ensures Handled(g, interrupts).right[y] == g.right[y]
  {
    if interrupts != [] {
      var before := Handled(g, interrupts[..|interrupts| - 1]);
      HandledKeepsOtherRows(g, interrupts[..|interrupts| - 1], y);
      if interrupts[|interrupts| - 1].Timer? {
        TickKeepsOtherRows(before, interrupts[|interrupts| - 1].moment, y);
      }
      hide Tick;
    }
  }

  /** However many interrupts arrive, only three rows of the right half can change. */
  lemma {:induction false} FiredKeepsOtherRows(g: Gui, arrivals: Schedule, from: nat, until: nat, y: nat)
    requires g.Ok() && from <= until && y < HEIGHT && !IsDrawn(y)
    ensures Fired(g, arrivals, from, until).right[y] == g.right[y]
    decreases until
  {
    hide Handled;
    if from < until {
      FiredKeepsOtherRows(g, arrivals, from, until - 1, y);
      HandledKeepsOtherRows(Fired(g, arrivals, from, until - 1), arrivals(until - 1), y);
    }
  }

  /** The scancodes that come before point `n`. */
  function KeysUntil(arrivals: Schedule, n: nat): seq<byte> {
    if n == 0 then [] else KeysUntil(arrivals, n - 1) + KeysOf(arrivals(n - 1))
  }

  // ---- What the panel shows -----------------------------------------------------

  /** The row shows the text from its second column on, in its colour, and blanks besides. */
  predicate RowHolds(row: Row, text: string, color: nat, clear: nat) {
    |row| == 40 && |text| < 40 &&
    forall x :: 0 <= x < 40 ==>
      if 1 <= x <= |text| then row[x] % 0x100 == text[x - 1] as nat && row[x] / 0x100 == color
      else row[x] % 0x100 == 32 && row[x] / 0x100 == clear
  }

  lemma LineHolds(text: string, clear: byte, color: byte)
    requires |text| < WIDTH && Plain(text)
    ensures RowHolds(Line(text, clear, color), text, color, clear)
  {
    forall x | 0 <= x < |text| ensures Printable(text[x] as nat) {
      assert text[x] in text;
    }
  }

  /** Row 3: the time, light cyan on black. */
  ghost predicate ShowsTime(g: Gui, a: Arrival) {
    |g.right| == 25 &&
    exists s :: RowHolds(g.right[3], s, 11, 15) && |s| == 14 && s[..6] == "Time: "
                && ReadsClock(s[6..], a.hour, a.minute, a.second)
  }

  /** Row 5: the free memory, white on blue. */
  ghost predicate ShowsMemory(g: Gui, free: nat) {
    |g.right| == 25 && exists s :: RowHolds(g.right[5], s, 31, 31) && ReadsMemory(s, free)
  }

  /** Row 7: the seconds since the start, white on blue. */
  ghost predicate ShowsUptime(g: Gui, seconds: nat) {
    |g.right| == 25 &&
    exists s :: RowHolds(g.right[7], s, 31, 31) && |s| >= 16 && s[..8] == "Uptime: " && ReadsSeconds(s[8..], seconds)
  }

  lemma TimeIsShown(g: Gui, a: Arrival)
    requires g.Ok()
    ensures ShowsTime(DrawnTime(g, a), a)
  {
    hide RowHolds, Line, TimeText, ReadsClock;
    TextsFit(a, g.ticks);
    TimeReads(a);
    LineHolds(TimeText(a), Color(WHITE, BLACK), Color(LIGHT_CYAN, BLACK));
  }

  lemma MemoryIsShown(g: Gui, a: Arrival)
    requires g.Ok()
    ensures ShowsMemory(DrawnMemory(g, a), a.free)
  {
    hide RowHolds, Line, MemoryText, ReadsMemory;
    TextsFit(a, g.ticks);
    MemoryReads(a);
    LineHolds(MemoryText(a), Color(WHITE, BLUE), Color(WHITE, BLUE));
  }

  lemma UptimeIsShown(g: Gui)
    requires g.Ok()
    ensures ShowsUptime(DrawnUptime(g), g.ticks / 18)
  {
    hide RowHolds, Line, UptimeText, ReadsSeconds;
    TextsFit(Arrival(0, 0, 0, 0), g.ticks);
    UptimeReads(g.ticks);
    LineHolds(UptimeText(g.ticks), Color(WHITE, BLUE), Color(WHITE, BLUE));
  }

  /** Every eighteenth tick draws the time, the memory and the uptime of its moment; the others draw nothing. */
  lemma TickShows(g: Gui, a: Arrival)
    requires g.Ok()
    ensures var t := Tick(g, a);
            && t.ticks == (if g.ticks == 0xFFFF_FFFF then 0 else g.ticks + 1)
            && if t.ticks % 18 == 0 then ShowsTime(t, a) && ShowsMemory(t, a.free) && ShowsUptime(t, t.ticks / 18)
               else t.right == g.right
  {
    hide ShowsTime, ShowsMemory, ShowsUptime;
    var counted := g.(ticks := NextTick(g.ticks));
    if Draws(counted.ticks) {
      var timed := DrawnTime(counted, a);
      var both := DrawnMemory(timed, a);
      TimeIsShown(counted, a);
      MemoryIsShown(timed, a);
      UptimeIsShown(both);
      OthersStay(counted, a);
    }
  }

  lemma OthersStay(g: Gui, a: Arrival)
    requires g.Ok()
    ensures var (timed, t) := (DrawnTime(g, a), DrawnUptime(DrawnMemory(DrawnTime(g, a), a)));
            && (ShowsTime(timed, a) ==> ShowsTime(t, a))
            && (ShowsMemory(DrawnMemory(timed, a), a.free) ==> ShowsMemory(t, a.free))
  {
    hide RowHolds, Line, TimeText, MemoryText, UptimeText, ReadsClock, ReadsMemory;
  }

  /** The panel shows the seconds that have passed. */
  ghost predicate UpToDate(g: Gui) {
    ShowsUptime(g, g.ticks / 18)
  }

  /** Between two drawings the number of seconds does not change. */
  lemma TickKeepsUpToDate(g: Gui, a: Arrival)
    requires g.Ok()
    ensures UpToDate(g) ==> UpToDate(Tick(g, a))
    ensures UpToDate(Tick(g, a)) || (Tick(g, a).ticks == g.ticks + 1 && Tick(g, a).ticks / 18 == g.ticks / 18)
  {
    hide Tick;
    TickShows(g, a);
    var t := Tick(g, a);
    if t.ticks % 18 != 0 {
      assert t.ticks == g.ticks + 1 && t.ticks / 18 == g.ticks / 18;
    }
  }

  /** How many of the interrupts are the timer's. */
  function Timers(interrupts: seq<Interrupt>): nat {
    if interrupts == [] then 0
    else Timers(interrupts[..|interrupts| - 1]) + if interrupts[|interrupts| - 1].Timer? then 1 else 0
  }

  /** Later the panel is up to date, or that many ticks have passed within the same 18. */
  ghost predicate Later(g: Gui, n: nat, t: Gui) {
    && (UpToDate(g) ==> UpToDate(t))
    && (UpToDate(t) || (t.ticks == g.ticks + n && t.ticks / 18 == g.ticks / 18))
  }

  lemma LaterThrough(g: Gui, n: nat, t: Gui, m: nat, u: Gui)
    requires Later(g, n, t) && Later(t, m, u)
    ensures Later(g, n + m, u)
  {
  }

  lemma {:induction false} HandledIsLater(g: Gui, interrupts: seq<Interrupt>)
    requires g.Ok()
    ensures Later(g, Timers(interrupts), Handled(g, interrupts))
  {
    hide UpToDate, Later, Tick;
    if interrupts == [] {
      NotLater(g);
    } else {
      var front := interrupts[..|interrupts| - 1];
      HandledIsLater(g, front);
      match interrupts[|interrupts| - 1]
      case Timer(a) =>
        TickIsLater(Handled(g, front), a);
        LaterThrough(g, Timers(front), Handled(g, front), 1, Tick(Handled(g, front), a));
      case Keystroke(_) =>
    }
  }

  lemma NotLater(g: Gui)
    ensures Later(g, 0, g)
  {
  }

  lemma TickIsLater(g: Gui, a: Arrival)
    requires g.Ok()
    ensures Later(g, 1, Tick(g, a))
  {
    hide UpToDate, Tick;
    TickKeepsUpToDate(g, a);
  }

  function TimersBetween(arrivals: Schedule, from: nat, until: nat): nat
    requires from <= until
    decreases until
  {
    if from == until then 0 else TimersBetween(arrivals, from, until - 1) + Timers(arrivals(until - 1))
  }

  lemma {:induction false} FiredIsLater(g: Gui, arrivals: Schedule, from: nat, until: nat)
    requires g.Ok() && from <= until
    ensures Later(g, TimersBetween(arrivals, from, until), Fired(g, arrivals, from, until))
    decreases until
  {
    hide Later, Handled, Timers;
    if from == until {
      NotLater(g);
    } else {
      var before := Fired(g, arrivals, from, until - 1);
      FiredIsLater(g, arrivals, from, until - 1);
      HandledIsLater(before, arrivals(until - 1));
      LaterThrough(g, TimersBetween(arrivals, from, until - 1), before, Timers(arrivals(until - 1)),
                   Fired(g, arrivals, from, until));
    }
  }

  /** Once 18 timer interrupts have come, whatever comes in between and however long it goes on, row 7 shows the seconds
      that have passed: the ticks so far divided by 18. */
  lemma UptimeIsUpToDate(g: Gui, arrivals: Schedule, from: nat, until: nat)
    requires g.Ok() && from <= until && (UpToDate(g) || TimersBetween(arrivals, from, until) >= 18)
    ensures UpToDate(Fired(g, arrivals, from, until))
  {
    hide UpToDate;
    FiredIsLater(g, arrivals, from, until);
  }
}
