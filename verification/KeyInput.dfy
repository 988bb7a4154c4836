/**
 The main loop's side of the keyboard: every operation lets interrupts in
 between any two of its steps.
 */
module KeyInput {
  import opened Machine
  import opened Keyboard
  import opened GuiModel
  import opened Console

  /** Between two steps, what comes in leaves both windows as they are. */
  method Pause(screen: Screen)
    requires screen.Valid()
    modifies screen.vga, screen`left, screen`right, screen`fullX, screen`fullY, screen`fullColor
    modifies screen`ticks, screen`point
    modifies screen.keyboard`end, screen.keyboard`modifiers, screen.keyboard`history, screen.keyboard.buffer
    ensures screen.Valid() && screen.OnlyInterrupted() && screen.Window() == old(screen.Window())
    ensures old(screen.keyboard.Pending()) <= screen.keyboard.Pending()
    ensures screen.enabled ==> screen.point == old(screen.point) + 1
    ensures screen.enabled && KeyDue(screen.arrivals, old(screen.point)) ==> screen.keyboard.Pending() != []
  {
    hide Fired, HalfOf, Ring, Queue, Delivered, Modifiers, Codes, KeysUntil, Screen.Mirror, KeyDue;
    screen.Interrupts();
  }

  /** Reads the first slot of a ring that is not empty, and then moves on. */
  method TakeKey(screen: Screen) returns (code: byte)
    requires screen.Valid() && screen.keyboard.Pending() != []
    modifies screen, screen.vga, screen.keyboard, screen.keyboard.buffer
    ensures screen.Valid() && screen.Undisturbed() && screen.Window() == old(screen.Window())
    ensures code == old(screen.keyboard.Pending())[0]
            && Delivered(screen.keyboard.history) == Delivered(old(screen.keyboard.history)) + [code]
  {
    hide Fired, HalfOf, Ring, Queue, Delivered, Modifiers, Codes, KeysUntil, Screen.Mirror, KeyboardDriver.InOrder;
    code := screen.keyboard.Front();
    Pause(screen);
    screen.keyboard.Advance();
  }

  /** `keyboard_get_scancode`: 0 if nothing is waiting. */
  method GetScancode(screen: Screen) returns (code: byte)
    requires screen.Valid()
    modifies screen, screen.vga, screen.keyboard, screen.keyboard.buffer
    ensures screen.Valid() && screen.Undisturbed() && screen.Window() == old(screen.Window())
    ensures var (keyboard, pending) := (screen.keyboard, old(screen.keyboard.Pending()));
            if pending == [] then code == 0 && Delivered(keyboard.history) == Delivered(old(keyboard.history))
            else code == pending[0] && Delivered(keyboard.history) == Delivered(old(keyboard.history)) + [code]
  {
    hide Fired, HalfOf, Ring, Queue, Delivered, Modifiers, Codes, KeysUntil, Screen.Mirror, KeyboardDriver.InOrder;
    var empty := screen.keyboard.IsEmpty();
    Pause(screen);
    if empty {
      code := 0;
    } else {
      code := TakeKey(screen);
    }
  }

  /** The loop that halts until the ring is not empty: a key comes at the latest at the point `due`. */
  method WaitForKey(screen: Screen, ghost due: nat)
    requires screen.Valid() && screen.enabled
    requires screen.keyboard.Pending() != [] || (screen.point <= due && KeyDue(screen.arrivals, due))
    modifies screen, screen.vga, screen.keyboard, screen.keyboard.buffer
    ensures screen.Valid() && screen.OnlyInterrupted() && screen.Window() == old(screen.Window())
    ensures screen.keyboard.Pending() != [] && old(screen.keyboard.Pending()) <= screen.keyboard.Pending()
  {
    hide Fired, HalfOf, Ring, Queue, Delivered, Modifiers, Codes, KeysUntil, Screen.Mirror, KeyDue,
         KeyboardDriver.Pending, Screen.Window, Screen.WindowOf;
    var empty := screen.keyboard.IsEmpty();
    while empty
      invariant screen.Valid() && screen.OnlyInterrupted() && screen.Window() == old(screen.Window())
      invariant old(screen.keyboard.Pending()) <= screen.keyboard.Pending()
      invariant if empty then screen.point <= due && KeyDue(screen.arrivals, due) else screen.keyboard.Pending() != []
      decreases due + 1 - screen.point
    {
      Pause(screen);
      empty := screen.keyboard.IsEmpty();
    }
  }

  method NextCode(screen: Screen, ghost due: nat) returns (code: byte)
    requires screen.Valid() && screen.enabled
    requires screen.keyboard.Pending() != [] || (screen.point <= due && KeyDue(screen.arrivals, due))
    modifies screen, screen.vga, screen.keyboard, screen.keyboard.buffer
    ensures screen.Valid() && screen.Undisturbed() && screen.Window() == old(screen.Window())
    ensures Delivered(screen.keyboard.history) == Delivered(old(screen.keyboard.history)) + [code]
    ensures old(screen.keyboard.Pending()) != [] ==> code == old(screen.keyboard.Pending())[0]
  {
    hide Fired, HalfOf, Ring, Queue, Delivered, Modifiers, Codes, KeysUntil, Screen.Mirror, KeyDue,
         KeyboardDriver.InOrder;
    WaitForKey(screen, due);
    Pause(screen);
    code := TakeKey(screen);
  }

  /** `keyboard_getchar` */
  method GetChar(screen: Screen, ghost due: nat) returns (c: char, ghost code: byte)
    requires screen.Valid() && screen.enabled
    requires screen.keyboard.Pending() != [] || (screen.point <= due && KeyDue(screen.arrivals, due))
    modifies screen, screen.vga, screen.keyboard, screen.keyboard.buffer
    ensures screen.Valid() && screen.Undisturbed() && screen.Window() == old(screen.Window())
    ensures var keyboard := screen.keyboard;
            && Delivered(keyboard.history) == Delivered(old(keyboard.history)) + [code]
            && (old(keyboard.Pending()) != [] ==> code == old(keyboard.Pending())[0])
            && c == Ascii(code, ShiftOn(keyboard.history), Toggled(keyboard.history, KEY_CAPS))
  {
    hide Fired, HalfOf, Ring, Queue, Delivered, Modifiers, Codes, KeysUntil, Screen.Mirror, KeyDue,
         KeyboardDriver.InOrder;
    var taken := NextCode(screen, due);
    code := taken;
    Pause(screen);
    c := screen.keyboard.ScancodeToAscii(taken);
  }

  /** `keyboard_is_key_pressed`: exactly whether the code is waiting. */
  method IsKeyPressed(screen: Screen, code: byte) returns (pressed: bool)
    requires screen.Valid()
    modifies screen, screen.vga, screen.keyboard, screen.keyboard.buffer
    ensures screen.Valid() && screen.OnlyInterrupted() && screen.Window() == old(screen.Window())
    ensures pressed <==> code in screen.keyboard.Pending()
  {
    hide Fired, HalfOf, Ring, Queue, Delivered, Modifiers, Codes, KeysUntil, Screen.Mirror;
    var keyboard := screen.keyboard;
    var i := keyboard.start;
    ghost var k: nat := 0;
    RingAt(keyboard.buffer[..], keyboard.start, keyboard.end, 0);
    while i != keyboard.end
      invariant screen.Valid() && screen.OnlyInterrupted() && screen.Window() == old(screen.Window())
      invariant k <= |keyboard.Pending()| && i == Place(keyboard.start, k)
      invariant forall j :: 0 <= j < k ==> keyboard.Pending()[j] != code
      decreases BUFFER_SIZE - k
    {
      RingAt(keyboard.buffer[..], keyboard.start, keyboard.end, k);
      if keyboard.buffer[i] == code {
        return true;
      }
      ghost var pending := keyboard.Pending();
      Pause(screen);
      assert forall j :: 0 <= j < k + 1 ==> keyboard.Pending()[j] == pending[j];
      RingAt(keyboard.buffer[..], keyboard.start, keyboard.end, k);
      i := (i + 1) % BUFFER_SIZE;
      k := k + 1;
    }
    RingAt(keyboard.buffer[..], keyboard.start, keyboard.end, k);
    return false;
  }
}
