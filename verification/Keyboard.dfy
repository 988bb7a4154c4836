/**
 The keyboard: the interrupt handler that fills a ring of scancodes, and the
 single steps in which the main loop drains it.
 */
module Keyboard {
  import opened Machine

  const BUFFER_SIZE: nat := 128

  const MOD_CTRL: bv8 := 1
  const MOD_SHIFT: bv8 := 2
  const MOD_ALT: bv8 := 4
  const MOD_CAPS: bv8 := 8
  const MOD_NUM: bv8 := 16
  const MOD_SCROLL: bv8 := 32

  const KEY_CTRL: byte := 0x1D
  const KEY_LEFT_SHIFT: byte := 0x2A
  const KEY_RIGHT_SHIFT: byte := 0x36
  const KEY_ALT: byte := 0x38
  const KEY_CAPS: byte := 0x3A
  const KEY_NUM: byte := 0x45
  const KEY_SCROLL: byte := 0x46

  // ---- What came from the keyboard ------------------------------------------------

  /** What happens to the keyboard: a scancode comes, or the main loop takes a code out of the ring. */
  datatype KeyEvent = Came(code: byte) | Taken

  type History = seq<KeyEvent>

  predicate IsMake(code: byte) {
    code < 0x80
  }

  function Key(code: byte): byte {
    if IsMake(code) then code else code - 0x80
  }

  /** Make codes that go to the ring: all but the modifiers. */
  predicate Buffered(code: byte) {
    IsMake(code) && code !in [KEY_CTRL, KEY_LEFT_SHIFT, KEY_RIGHT_SHIFT, KEY_ALT, KEY_CAPS, KEY_NUM, KEY_SCROLL]
  }

  /** These are the make codes but for control, the shift keys, alt and the locks. */
  lemma ModifiersAreNotBuffered(code: byte)
    ensures Buffered(code) <==> code < 128 && code !in {29, 42, 54, 56, 58, 69, 70}
  {
  }

  /** The scancodes that came. */
  function Codes(h: History): seq<byte> {
    if h == [] then [] else
      Codes(h[..|h| - 1]) + match h[|h| - 1] { case Came(code) => [code] case Taken => [] }
  }

  /** The buffered ones among them. */
  function BufferedOf(codes: seq<byte>): seq<byte> {
    if codes == [] then [] else
      var code := codes[|codes| - 1];
      BufferedOf(codes[..|codes| - 1]) + if Buffered(code) then [code] else []
  }

  /** What waits after a history, first in first out: a buffered code is refused only when 127 wait. */
  function Queue(h: History): (q: seq<byte>)
    ensures |q| < BUFFER_SIZE
  {
    if h == [] then [] else
      var q := Queue(h[..|h| - 1]);
      match h[|h| - 1]
      case Came(code) => if Buffered(code) && |q| < BUFFER_SIZE - 1 then q + [code] else q
      case Taken => if q == [] then q else q[1..]
  }

  /** The codes that were taken, in order. */
  function Delivered(h: History): seq<byte> {
    if h == [] then [] else
      var q := Queue(h[..|h| - 1]);
      Delivered(h[..|h| - 1]) + if h[|h| - 1].Taken? && q != [] then [q[0]] else []
  }

  /** Event `i` is a buffered code that found the ring full. */
  predicate RefusedAt(h: History, i: nat) {
    i < |h| && h[i].Came? && Buffered(h[i].code) && |Queue(h[..i])| == 127
  }

  predicate NeverFull(h: History) {
    forall i :: 0 <= i < |h| ==> !RefusedAt(h, i)
  }

  lemma OneEventMore(h: History, e: KeyEvent)
    ensures Codes(h + [e]) == Codes(h) + match e { case Came(code) => [code] case Taken => [] }
    ensures e.Came? ==> Delivered(h + [e]) == Delivered(h)
    ensures e.Came? ==>
              Queue(h + [e]) == Queue(h) + if Buffered(e.code) && |Queue(h)| < BUFFER_SIZE - 1 then [e.code] else []
    ensures e.Taken? && Queue(h) != [] ==>
              Delivered(h + [e]) == Delivered(h) + [Queue(h)[0]] && Queue(h + [e]) == Queue(h)[1..]
    ensures e.Taken? && Queue(h) == [] ==> Delivered(h + [e]) == Delivered(h) && Queue(h + [e]) == Queue(h)
  {
    assert (h + [e])[..|h|] == h;
  }

  /** The events of codes that come one after the other. */
  function Cames(codes: seq<byte>): History {
    seq(|codes|, i requires 0 <= i < |codes| => Came(codes[i]))
  }

  lemma {:induction false} CamesOnly(h: History, codes: seq<byte>)
    ensures Codes(h + Cames(codes)) == Codes(h) + codes && Delivered(h + Cames(codes)) == Delivered(h)
    ensures Queue(h) <= Queue(h + Cames(codes))
  {
    hide Queue, Delivered, Codes;
    if codes == [] {
      assert h + Cames(codes) == h;
    } else {
      var (front, last) := (codes[..|codes| - 1], codes[|codes| - 1]);
      CamesOnly(h, front);
      assert h + Cames(codes) == h + Cames(front) + [Came(last)] && codes == front + [last];
      OneEventMore(h + Cames(front), Came(last));
    }
  }

  /** An event adds the same to the codes that got through as to the buffered codes, unless a code finds the ring
      full. */
  lemma OneEventThrough(h: History, e: KeyEvent)
    ensures var x := if e.Came? && Buffered(e.code) then [e.code] else [];
            && BufferedOf(Codes(h + [e])) == BufferedOf(Codes(h)) + x
            && Delivered(h + [e]) + Queue(h + [e])
               == Delivered(h) + Queue(h) + if |Queue(h)| == BUFFER_SIZE - 1 then [] else x
  {
    hide Delivered, Queue, Codes, BufferedOf, Buffered;
    OneEventMore(h, e);
    match e
    case Came(code) =>
      BufferedMore(Codes(h), code);
      assert Delivered(h) + (Queue(h) + [code]) == Delivered(h) + Queue(h) + [code];
      assert Queue(h) + [] == Queue(h) && Delivered(h) + Queue(h) + [] == Delivered(h) + Queue(h);
    case Taken =>
      assert Codes(h) + [] == Codes(h);
      if Queue(h) != [] {
        assert [Queue(h)[0]] + Queue(h)[1..] == Queue(h);
      }
  }

  lemma BufferedMore(codes: seq<byte>, code: byte)
    ensures BufferedOf(codes + [code]) == BufferedOf(codes) + if Buffered(code) then [code] else []
  {
    assert (codes + [code])[..|codes|] == codes;
  }

  lemma NeverFullMore(h: History, e: KeyEvent)
    ensures NeverFull(h + [e]) <==> NeverFull(h) && !RefusedAt(h + [e], |h|)
    ensures RefusedAt(h + [e], |h|) <==> e.Came? && Buffered(e.code) && |Queue(h)| == BUFFER_SIZE - 1
  {
    hide Queue;
    assert (h + [e])[..|h|] == h;
    forall i | 0 <= i < |h| ensures RefusedAt(h + [e], i) <==> RefusedAt(h, i) {
      assert (h + [e])[..i] == h[..i];
    }
  }

  lemma AppendSame(s: seq<byte>, t: seq<byte>, x: seq<byte>)
    ensures s + x == t + x <==> s == t
  {
    if s + x == t + x {
      assert |s| == |t| && (s + x)[..|s|] == s && (t + x)[..|t|] == t;
    }
  }

  /** Codes taken and codes waiting are at most the buffered ones that came, and are these, in order, exactly if none
      was refused. */
  lemma {:induction false} NothingIsLostIff(h: History)
    ensures |Delivered(h)| + |Queue(h)| <= |BufferedOf(Codes(h))|
    ensures Delivered(h) + Queue(h) == BufferedOf(Codes(h)) <==> NeverFull(h)
  {
    if h != [] {
      hide Delivered, Queue, BufferedOf, Codes, NeverFull, RefusedAt, Buffered;
      var (front, e) := (h[..|h| - 1], h[|h| - 1]);
      assert h == front + [e];
      NothingIsLostIff(front);
      OneEventThrough(front, e);
      NeverFullMore(front, e);
      var x := if e.Came? && Buffered(e.code) then [e.code] else [];
      AppendSame(Delivered(front) + Queue(front), BufferedOf(Codes(front)), x);
    }
  }

  /** While fewer than 127 of the buffered codes that came are still to be taken, none is lost. */
  lemma NothingIsLost(h: History)
    requires forall i :: 0 <= i <= |h| ==> |BufferedOf(Codes(h[..i]))| < |Delivered(h[..i])| + 127
    ensures Delivered(h) + Queue(h) == BufferedOf(Codes(h))
  {
    forall i | 0 <= i < |h| ensures !RefusedAt(h, i) {
      NothingIsLostIff(h[..i]);
    }
    NothingIsLostIff(h);
  }

  lemma {:induction false} DeliveredBefore(h: History, i: nat)
    requires i <= |h|
    ensures Delivered(h[..i]) <= Delivered(h)
  {
    if i < |h| {
      DeliveredBefore(h[..|h| - 1], i);
      assert h[..|h| - 1][..i] == h[..i];
    } else {
      assert h[..i] == h;
    }
  }

  /** The last time `key` moved it went down. */
  function Down(h: History, key: byte): bool {
    if h == [] then false else
      match h[|h| - 1]
      case Came(code) => if Key(code) == key then IsMake(code) else Down(h[..|h| - 1], key)
      case Taken => Down(h[..|h| - 1], key)
  }

  predicate IsShift(key: byte) {
    key == KEY_LEFT_SHIFT || key == KEY_RIGHT_SHIFT
  }

  /** The last scancode of a shift key. */
  function LastShift(h: History): Option<byte> {
    if h == [] then None else
      match h[|h| - 1]
      case Came(code) => if IsShift(Key(code)) then Some(code) else LastShift(h[..|h| - 1])
      case Taken => LastShift(h[..|h| - 1])
  }

  /** What the code takes for shift: a shift key moved, and the last one that did went down. */
  predicate ShiftOn(h: History) {
    LastShift(h).Some? && IsMake(LastShift(h).value)
  }

  /** `key` went down an odd number of times. */
  function Toggled(h: History, key: byte): bool {
    if h == [] then false else Toggled(h[..|h| - 1], key) != (h[|h| - 1] == Came(key))
  }

  function Bit(on: bool, mask: bv8): bv8 {
    if on then mask else 0
  }

  /** The modifier byte of a history. */
  function Modifiers(h: History): bv8 {
    Bit(Down(h, KEY_CTRL), MOD_CTRL) | Bit(ShiftOn(h), MOD_SHIFT) | Bit(Down(h, KEY_ALT), MOD_ALT)
    | Bit(Toggled(h, KEY_CAPS), MOD_CAPS) | Bit(Toggled(h, KEY_NUM), MOD_NUM) | Bit(Toggled(h, KEY_SCROLL), MOD_SCROLL)
  }

  /** What the handler does to the modifier byte. */
  function Modified(m: bv8, code: byte): bv8 {
    if !IsMake(code) then
      if Key(code) == KEY_CTRL then m & !MOD_CTRL
      else if Key(code) == KEY_LEFT_SHIFT || Key(code) == KEY_RIGHT_SHIFT then m & !MOD_SHIFT
      else if Key(code) == KEY_ALT then m & !MOD_ALT
      else m
    else
      if code == KEY_CTRL then m | MOD_CTRL
      else if code == KEY_LEFT_SHIFT || code == KEY_RIGHT_SHIFT then m | MOD_SHIFT
      else if code == KEY_ALT then m | MOD_ALT
      else if code == KEY_CAPS then m ^ MOD_CAPS
      else if code == KEY_NUM then m ^ MOD_NUM
      else if code == KEY_SCROLL then m ^ MOD_SCROLL
      else m
  }

  lemma Bits(c: bool, s: bool, a: bool, k: bool, n: bool, l: bool)
    ensures var m := Bit(c, MOD_CTRL) | Bit(s, MOD_SHIFT) | Bit(a, MOD_ALT)
                     | Bit(k, MOD_CAPS) | Bit(n, MOD_NUM) | Bit(l, MOD_SCROLL);
            && (m & MOD_SHIFT != 0 <==> s) && (m & MOD_CAPS != 0 <==> k)
            && (m & MOD_CTRL != 0 <==> c) && (m & MOD_ALT != 0 <==> a)
            && (m & MOD_NUM != 0 <==> n) && (m & MOD_SCROLL != 0 <==> l)
  {
  }

  /** A scancode changes the byte of a history as the handler changes the byte, and taking a code does not. */
  lemma ModifiersFollow(h: History, code: byte)
    ensures Modifiers(h + [Came(code)]) == Modified(Modifiers(h), code)
    ensures Modifiers(h + [Taken]) == Modifiers(h)
  {
    assert (h + [Came(code)])[..|h|] == h && (h + [Taken])[..|h|] == h;
    var (c, on, a) := (Down(h, KEY_CTRL), ShiftOn(h), Down(h, KEY_ALT));
    var (k, n, l) := (Toggled(h, KEY_CAPS), Toggled(h, KEY_NUM), Toggled(h, KEY_SCROLL));
    ModifiedBits(c, on, a, k, n, l, code);
    hide Modified;
  }

  lemma ModifiedBits(c: bool, s: bool, a: bool, k: bool, n: bool, l: bool, code: byte)
    ensures var m := Bit(c, MOD_CTRL) | Bit(s, MOD_SHIFT) | Bit(a, MOD_ALT)
                     | Bit(k, MOD_CAPS) | Bit(n, MOD_NUM) | Bit(l, MOD_SCROLL);
            var key := Key(code);
            Modified(m, code) ==
            Bit(if key == KEY_CTRL then IsMake(code) else c, MOD_CTRL)
            | Bit(if IsShift(key) then IsMake(code) else s, MOD_SHIFT)
            | Bit(if key == KEY_ALT then IsMake(code) else a, MOD_ALT) | Bit(k != (code == KEY_CAPS), MOD_CAPS)
            | Bit(n != (code == KEY_NUM), MOD_NUM) | Bit(l != (code == KEY_SCROLL), MOD_SCROLL)
  {
  }

  /** The byte tells whether control and alt are down, and which locks went down an odd number of times; its shift bit
      tells what the code takes for shift. */
  lemma ModifiersTell(h: History)
    ensures var m := Modifiers(h);
            && (m & MOD_CTRL != 0 <==> Down(h, KEY_CTRL)) && (m & MOD_ALT != 0 <==> Down(h, KEY_ALT))
            && (m & MOD_CAPS != 0 <==> Toggled(h, KEY_CAPS)) && (m & MOD_NUM != 0 <==> Toggled(h, KEY_NUM))
            && (m & MOD_SCROLL != 0 <==> Toggled(h, KEY_SCROLL)) && (m & MOD_SHIFT != 0 <==> ShiftOn(h))
  {
    Bits(Down(h, KEY_CTRL), ShiftOn(h), Down(h, KEY_ALT), Toggled(h, KEY_CAPS), Toggled(h, KEY_NUM),
         Toggled(h, KEY_SCROLL));
  }

  /** A shift key was released, as the last move of a shift key, while the other one was down. */
  predicate ReleasedOverOther(h: History) {
    && LastShift(h).Some? && !IsMake(LastShift(h).value)
    && Down(h, if Key(LastShift(h).value) == KEY_LEFT_SHIFT then KEY_RIGHT_SHIFT else KEY_LEFT_SHIFT)
  }

  lemma {:induction false} LastShiftIsDown(h: History)
    ensures LastShift(h).None? ==> !Down(h, KEY_LEFT_SHIFT) && !Down(h, KEY_RIGHT_SHIFT)
    ensures LastShift(h).Some? ==>
              var code := LastShift(h).value;
              IsShift(Key(code)) && (Down(h, Key(code)) <==> IsMake(code))
  {
    if h != [] {
      LastShiftIsDown(h[..|h| - 1]);
    }
  }

  /** The shift bit tells whether a shift key is down exactly unless one was released over the other. */
  lemma ShiftTellsIff(h: History)
    ensures (Modifiers(h) & MOD_SHIFT != 0 <==> Down(h, KEY_LEFT_SHIFT) || Down(h, KEY_RIGHT_SHIFT))
            <==> !ReleasedOverOther(h)
  {
    ModifiersTell(h);
    LastShiftIsDown(h);
    hide Modifiers;
  }

  /** Left down, right down, right up: left shift is down, and the bit is clear. */
  lemma ShiftIsLost()
    ensures var h := [Came(0x2A), Came(0x36), Came(0xB6)];
            Down(h, KEY_LEFT_SHIFT) && Modifiers(h) & MOD_SHIFT == 0
  {
    var h := [Came(0x2A), Came(0x36), Came(0xB6)];
    assert h[..2][..1] == h[..1];
    assert Down(h[..1], KEY_LEFT_SHIFT) && Down(h[..2], KEY_LEFT_SHIFT);
    ModifiersTell(h);
    hide Modifiers;
  }

  // ---- Characters -------------------------------------------------------------------

  const ESC: char := 27 as char
  const RUBOUT: char := 8 as char

  /** The two tables: the characters of the codes without and with shift. */
  function Table(shift: bool, code: byte): char {
    if code == 0x01 then ESC
    else if 0x02 <= code <= 0x0D then (if shift then "!@#$%^&*()_+" else "1234567890-=")[code - 0x02]
    else if code == 0x0E then RUBOUT
    else if code == 0x0F then '\t'
    else if 0x10 <= code <= 0x1B then (if shift then "QWERTYUIOP{}" else "qwertyuiop[]")[code - 0x10]
    else if code == 0x1C then '\n'
    else if 0x1E <= code <= 0x29 then (if shift then "ASDFGHJKL:\"~" else "asdfghjkl;'`")[code - 0x1E]
    else if code == 0x2B then (if shift then '|' else '\\')
    else if 0x2C <= code <= 0x35 then (if shift then "ZXCVBNM<>?" else "zxcvbnm,./")[code - 0x2C]
    else if code == 0x37 then '*'
    else if code == 0x39 then ' '
    else if code == 0x4E then '-'
    else if code == 0x52 then '+'
    else '\0'
  }

  /** The character of a code. Caps lock works on the row from Q on alone. */
  function Ascii(code: byte, shift: bool, caps: bool): char {
    if code >= 128 then '\0'
    else if shift || (caps && 0x10 <= code <= 0x1A) then Table(true, code)
    else Table(false, code)
  }

  /** Without shift, caps lock changes the characters of the codes 0x10 to 0x1A and no others: not those of A to L or Z
      to M. */
  lemma CapsReachesOneRow(code: byte)
    ensures Ascii(code, false, true) != Ascii(code, false, false) <==> 0x10 <= code <= 0x1A
  {
    if 0x10 <= code <= 0x1A {
      assert "qwertyuiop[]"[code - 0x10] != "QWERTYUIOP{}"[code - 0x10];
    }
  }

  predicate IsSmallLetter(c: char) {
    'a' <= c <= 'z'
  }

  function Capital(c: char): char
    requires IsSmallLetter(c)
  {
    (c as int - 'a' as int + 'A' as int) as char
  }

  /** With shift, caps lock changes nothing, and a letter is its capital. Without shift, caps lock gives the capital of
      a
      letter exactly if it is in the row from Q to P. */
  lemma ShiftGivesCapitals(code: byte, caps: bool)
    requires code < 128
    ensures Ascii(code, true, caps) == Ascii(code, true, false)
    ensures var c := Ascii(code, false, false);
            IsSmallLetter(c) ==>
              && Ascii(code, true, caps) == Capital(c)
              && Ascii(code, false, caps) == if caps && c in "qwertyuiop" then Capital(c) else c
  {
    LettersOfRow(code, 0x10, "qwertyuiop[]", "QWERTYUIOP{}");
    LettersOfRow(code, 0x1E, "asdfghjkl;'`", "ASDFGHJKL:\"~");
    LettersOfRow(code, 0x2C, "zxcvbnm,./", "ZXCVBNM<>?");
  }

  lemma LettersOfRow(code: byte, first: byte, small: string, capital: string)
    requires (first, small, capital) in {(0x10, "qwertyuiop[]", "QWERTYUIOP{}"),
                                         (0x1E, "asdfghjkl;'`", "ASDFGHJKL:\"~"),
                                         (0x2C, "zxcvbnm,./", "ZXCVBNM<>?")}
    ensures |small| == |capital|
    ensures first <= code < first + |small| ==>
              && (IsSmallLetter(small[code - first]) ==> capital[code - first] == Capital(small[code - first]))
              && (small[code - first] in "qwertyuiop" <==> first == 0x10 && code <= 0x19)
  {
  }

  /** The rows of the two tables: the first code, whether shift is down, and the characters. */
  predicate IsTableRow(first: byte, shift: bool, row: string) {
    || (first, shift, row) == (0x02, false, "1234567890-=") || (first, shift, row) == (0x02, true, "!@#$%^&*()_+")
    || (first, shift, row) == (0x10, false, "qwertyuiop[]") || (first, shift, row) == (0x10, true, "QWERTYUIOP{}")
    || (first, shift, row) == (0x1E, false, "asdfghjkl;'`") || (first, shift, row) == (0x1E, true, "ASDFGHJKL:\"~")
    || (first, shift, row) == (0x2C, false, "zxcvbnm,./") || (first, shift, row) == (0x2C, true, "ZXCVBNM<>?")
    || (first, shift, row) == (0x2B, false, "\\") || (first, shift, row) == (0x2B, true, "|")
    || (first, shift, row) == (0x39, false, " ")
  }

  lemma TypedInRow(first: byte, shift: bool, row: string, i: nat)
    requires IsTableRow(first, shift, row) && i < |row|
    ensures first + i < 128 && Buffered(first + i) && Ascii(first + i, shift, false) == row[i]
  {
  }

  /** Every printable character can be typed. */
  lemma EveryCharacterIsTyped(c: char)
    requires 32 <= c as nat <= 126
    ensures exists code: byte, shift: bool :: code < 128 && Buffered(code) && Ascii(code, shift, false) == c
  {
    hide Ascii, Buffered;
    var first, shift, row := RowOf(c);
    var i :| 0 <= i < |row| && row[i] == c;
    TypedInRow(first, shift, row, i);
  }

  lemma RowOf(c: char) returns (first: byte, shift: bool, row: string)
    requires 32 <= c as nat <= 126
    ensures IsTableRow(first, shift, row) && c in row
  {
    if c in "1234567890-=" { return 0x02, false, "1234567890-="; }
    if c in "!@#$%^&*()_+" { return 0x02, true, "!@#$%^&*()_+"; }
    if c in "qwertyuiop[]" { return 0x10, false, "qwertyuiop[]"; }
    if c in "QWERTYUIOP{}" { return 0x10, true, "QWERTYUIOP{}"; }
    if c in "asdfghjkl;'`" { return 0x1E, false, "asdfghjkl;'`"; }
    if c in "ASDFGHJKL:\"~" { return 0x1E, true, "ASDFGHJKL:\"~"; }
    if c in "zxcvbnm,./" { return 0x2C, false, "zxcvbnm,./"; }
    if c in "ZXCVBNM<>?" { return 0x2C, true, "ZXCVBNM<>?"; }
    if c == '\\' { return 0x2B, false, "\\"; }
    if c == '|' { return 0x2B, true, "|"; }
    assert c == ' ';
    return 0x39, false, " ";
  }

  // ---- The ring ---------------------------------------------------------------------

  /** The codes between the two indices of the ring. */
  function Ring(buffer: seq<byte>, start: nat, end: nat): (pending: seq<byte>)
    requires |buffer| == BUFFER_SIZE && start < BUFFER_SIZE && end < BUFFER_SIZE
    ensures |pending| < BUFFER_SIZE
  {
    if start <= end then buffer[start..end] else buffer[start..] + buffer[..end]
  }

  function Next(i: nat): (n: nat)
    requires i < BUFFER_SIZE
    ensures n < BUFFER_SIZE
  {
    (i + 1) % BUFFER_SIZE
  }

  /** Place `k` of the ring, counted from `start`. */
  function Place(start: nat, k: nat): (i: nat)
    requires start < BUFFER_SIZE && k < BUFFER_SIZE
    ensures i < BUFFER_SIZE
  {
    if start + k < BUFFER_SIZE then start + k else start + k - BUFFER_SIZE
  }

  lemma RingAt(buffer: seq<byte>, start: nat, end: nat, k: nat)
    requires |buffer| == BUFFER_SIZE && start < BUFFER_SIZE && end < BUFFER_SIZE && k < BUFFER_SIZE
    ensures k == |Ring(buffer, start, end)| <==> Place(start, k) == end
    ensures k < |Ring(buffer, start, end)| ==> Ring(buffer, start, end)[k] == buffer[Place(start, k)]
    ensures k < |Ring(buffer, start, end)| ==> Place(start, k + 1) == Next(Place(start, k))
  {
  }

  lemma RingGrows(buffer: seq<byte>, start: nat, end: nat, code: byte)
    requires |buffer| == BUFFER_SIZE && start < BUFFER_SIZE && end < BUFFER_SIZE
    ensures Next(end) == start <==> |Ring(buffer, start, end)| == BUFFER_SIZE - 1
    ensures Next(end) != start ==> Ring(buffer[end := code], start, Next(end)) == Ring(buffer, start, end) + [code]
  {
  }

  lemma RingShrinks(buffer: seq<byte>, start: nat, end: nat)
    requires |buffer| == BUFFER_SIZE && start < BUFFER_SIZE && end < BUFFER_SIZE
    ensures start == end <==> Ring(buffer, start, end) == []
    ensures start != end ==> Ring(buffer, start, end) == [buffer[start]] + Ring(buffer, Next(start), end)
  {
    if start < end {
      RingShrinksBelow(buffer, start, end);
    } else if start > end {
      RingShrinksAround(buffer, start, end);
    }
  }

  lemma RingShrinksBelow(buffer: seq<byte>, start: nat, end: nat)
    requires |buffer| == BUFFER_SIZE && start < end < BUFFER_SIZE
    ensures Ring(buffer, start, end) == [buffer[start]] + Ring(buffer, Next(start), end)
  {
    assert Next(start) == start + 1;
    assert buffer[start..end] == [buffer[start]] + buffer[start + 1..end];
  }

  lemma RingShrinksAround(buffer: seq<byte>, start: nat, end: nat)
    requires |buffer| == BUFFER_SIZE && end < start < BUFFER_SIZE
    ensures Ring(buffer, start, end) == [buffer[start]] + Ring(buffer, Next(start), end)
  {
    assert buffer[start..] == [buffer[start]] + buffer[start + 1..];
    if start + 1 == BUFFER_SIZE {
      assert Next(start) == 0 && buffer[start + 1..] == [];
    } else {
      assert Next(start) == start + 1;
      assert [buffer[start]] + buffer[start + 1..] + buffer[..end]
             == [buffer[start]] + (buffer[start + 1..] + buffer[..end]);
    }
  }

  class KeyboardDriver {
    const buffer: array<byte>

    var modifiers: bv8
    var start: nat
    var end: nat

    /** All that happened, in order. */
    ghost var history: History

    constructor ()
      ensures InOrder() && history == [] && fresh(buffer)
    {
      buffer := new byte[BUFFER_SIZE];
      modifiers, start, end := 0, 0, 0;
      history := [];
    }

    ghost function Pending(): seq<byte>
      requires buffer.Length == BUFFER_SIZE && start < BUFFER_SIZE && end < BUFFER_SIZE
      reads this, buffer
    {
      Ring(buffer[..], start, end)
    }

    /** The ring holds what must be waiting after all that happened, and the modifier byte tells of it. */
    ghost predicate InOrder()
      reads this, buffer
    {
      && buffer.Length == BUFFER_SIZE && start < BUFFER_SIZE && end < BUFFER_SIZE
      && Pending() == Queue(history)
      && modifiers == Modifiers(history)
    }

    /** The key releases and presses that concern the modifier byte. */
    method UpdateModifiers(code: byte)
      modifies this`modifiers
      ensures modifiers == Modified(old(modifiers), code)
    {
      if !IsMake(code) {
        var key := code - 0x80;
        if key == KEY_CTRL {
          modifiers := modifiers & !MOD_CTRL;
        } else if key == KEY_LEFT_SHIFT || key == KEY_RIGHT_SHIFT {
          modifiers := modifiers & !MOD_SHIFT;
        } else if key == KEY_ALT {
          modifiers := modifiers & !MOD_ALT;
        }
      } else if code == KEY_CTRL {
        modifiers := modifiers | MOD_CTRL;
      } else if code == KEY_LEFT_SHIFT || code == KEY_RIGHT_SHIFT {
        modifiers := modifiers | MOD_SHIFT;
      } else if code == KEY_ALT {
        modifiers := modifiers | MOD_ALT;
      } else if code == KEY_CAPS {
        modifiers := modifiers ^ MOD_CAPS;
      } else if code == KEY_NUM {
        modifiers := modifiers ^ MOD_NUM;
      } else if code == KEY_SCROLL {
        modifiers := modifiers ^ MOD_SCROLL;
      }
    }

    /** Puts a code into the ring unless that would make it look empty. */
    method Enqueue(code: byte)
      requires buffer.Length == BUFFER_SIZE && start < BUFFER_SIZE && end < BUFFER_SIZE
      modifies buffer, this`end
      ensures end < BUFFER_SIZE
      ensures Pending() == old(Pending()) + if |old(Pending())| < BUFFER_SIZE - 1 then [code] else []
    {
      RingGrows(buffer[..], start, end, code);
      if (end + 1) % BUFFER_SIZE != start {
        buffer[end] := code;
        end := (end + 1) % BUFFER_SIZE;
      }
    }

    /** The interrupt. */
    method Handler(code: byte)
      requires InOrder()
      modifies buffer, this`end, this`modifiers, this`history
      ensures InOrder() && history == old(history) + [Came(code)]
      ensures Buffered(code) ==> Pending() != []
    {
      hide Ring, Modified, Modifiers, Queue;
      ModifiersFollow(history, code);
      OneEventMore(history, Came(code));
      UpdateModifiers(code);
      if Buffered(code) {
        Enqueue(code);
      }
      history := history + [Came(code)];
    }

    // ---- The steps of the main loop ---------------------------------------------

    method IsEmpty() returns (empty: bool)
      requires InOrder()
      ensures empty <==> Pending() == []
    {
      RingShrinks(buffer[..], start, end);
      empty := start == end;
    }

    method Front() returns (code: byte)
      requires InOrder() && Pending() != []
      ensures code == Pending()[0]
    {
      RingShrinks(buffer[..], start, end);
      code := buffer[start];
    }

    /** Takes the first code out. */
    method Advance()
      requires InOrder() && Pending() != []
      modifies this`start, this`history
      ensures InOrder() && history == old(history) + [Taken] && Codes(history) == Codes(old(history))
      ensures Delivered(history) == Delivered(old(history)) + [old(Pending())[0]] && Pending() == old(Pending())[1..]
    {
      hide Queue, Delivered, Codes, Modifiers, Ring;
      RingShrinks(buffer[..], start, end);
      ModifiersFollow(history, 0);
      OneEventMore(history, Taken);
      assert Codes(history) + [] == Codes(history);
      history := history + [Taken];
      start := (start + 1) % BUFFER_SIZE;
    }

    method ScancodeToAscii(code: byte) returns (c: char)
      requires InOrder()
      ensures c == Ascii(code, ShiftOn(history), Toggled(history, KEY_CAPS))
    {
      ModifiersTell(history);
      hide Modifiers;
      if code >= 128 {
        return '\0';
      }
      var shift := (modifiers & MOD_SHIFT != 0) || ((modifiers & MOD_CAPS != 0) && code >= 0x10 && code <= 0x1A);
      if shift {
        c := Table(true, code);
      } else {
        c := Table(false, code);
      }
    }
  }
}
