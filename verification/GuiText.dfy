/**
 The strings of the status panel, built by concatenation in character arrays.
 */
module GuiText {
  import opened Machine
  import opened Libc
  import opened Numbers
  import opened GuiModel

  /** `strcat` of a number printed into a field of its own. */
  method CatNumber(str: array<char>, n: i32, width: nat)
    requires 0 <= n && |Digits(n, 10)| < width
    requires Terminated(str[..]) && |CStr(str[..])| + width <= str.Length
    modifies str
    ensures Terminated(str[..]) && CStr(str[..]) == CStr(old(str[..])) + Digits(n, 10)
  {
    var field := new char[width];
    Itoa(n, field, 10);
    assert field[0..] == field[..];
    var text := Text(field, 0);
    NoNulInDigits(n, 10);
    Strcat(str, text);
  }

  /** A field of a clock, with its leading zero. */
  method CatPadded(str: array<char>, n: i32, width: nat)
    requires 0 <= n && |Digits(n, 10)| < width
    requires Terminated(str[..]) && |CStr(str[..])| + 1 + width <= str.Length
    modifies str
    ensures Terminated(str[..]) && CStr(str[..]) == CStr(old(str[..])) + Padded(n)
  {
    if n < 10 {
      Strcat(str, "0");
    }
    ghost var before := CStr(str[..]);
    CatNumber(str, n, width);
    assert CStr(old(str[..])) + Padded(n) == before + Digits(n, 10);
  }

  /** Three fields with colons between them, after what `str` holds. */
  method CatClock(str: array<char>, hour: i32, minute: i32, second: i32, width: nat)
    requires 0 <= hour < 100_000 && 0 <= minute < 100 && 0 <= second < 100
    requires width >= 3 && |Digits(hour, 10)| < width
    requires Terminated(str[..]) && |CStr(str[..])| + |Padded(hour)| + 8 + width <= str.Length
    modifies str
    ensures Terminated(str[..]) && CStr(str[..]) == CStr(old(str[..])) + ClockText(hour, minute, second)
  {
    hide CStr, Digits;
    ghost var start := CStr(str[..]);
    PaddedIsPlain(hour);
    PaddedIsPlain(minute);
    PaddedIsPlain(second);
    CatPadded(str, hour, width);
    Strcat(str, ":");
    assert CStr(str[..]) == start + (Padded(hour) + ":");
    CatPadded(str, minute, width);
    assert CStr(str[..]) == start + (Padded(hour) + ":" + Padded(minute));
    Strcat(str, ":");
    assert CStr(str[..]) == start + (Padded(hour) + ":" + Padded(minute) + ":");
    CatPadded(str, second, width);
    assert CStr(str[..]) == start + ClockText(hour, minute, second);
  }

  lemma FieldWidths(n: nat, width: nat)
    requires n < 100_000 && (width >= 6 || (width >= 3 && n < 100))
    ensures |Digits(n, 10)| < width
  {
    Powers();
    DigitCount(n, 5);
    DigitCount(n, 2);
  }

  /** `format_time_str` */
  method FormatTime(hour: ClockField, minute: ClockField, second: ClockField) returns (text: string)
    ensures text == ClockText(hour, minute, second)
    ensures |text| == 8 && ReadsClock(text, hour, minute, second)
  {
    ClockReads(hour, minute, second);
    ClockIsPlain(hour, minute, second);
    hide ReadsClock;
    var str := new char[16];
    str[0] := NUL;
    assert CStr(str[..]) == "";
    FieldWidths(hour, 3);
    PaddedIsPlain(hour);
    CatClock(str, hour, minute, second, 3);
    assert str[0..] == str[..];
    text := Text(str, 0);
  }

  method FormatUptime(ticks: u32) returns (text: string)
    ensures text == UptimeText(ticks)
    ensures |text| >= 16 && text[..8] == "Uptime: " && ReadsSeconds(text[8..], ticks / 18)
  {
    UptimeReads(ticks);
    hide ReadsSeconds;
    var uptime: nat := ticks / TICKS_PER_DRAWING;
    var hours: nat, minutes: nat, seconds: nat := uptime / 3600, uptime % 3600 / 60, uptime % 60;
    var str := new char[32];
    str[0] := NUL;
    assert CStr(str[..]) == "";
    FieldWidths(hours, 10);
    PaddedIsPlain(hours);
    Strcat(str, "Uptime: ");
    CatClock(str, hours, minutes, seconds, 10);
    assert str[0..] == str[..];
    text := Text(str, 0);
  }

  method FormatMemory(free: i32, total: i32) returns (text: string)
    requires 0 <= free < 100_000 && 0 <= total < 100_000
    ensures text == "Mem: " + Digits(free, 10) + "/" + Digits(total, 10) + " KB free"
  {
    hide Digits;
    var str := new char[48];
    str[0] := NUL;
    assert CStr(str[..]) == "";
    FieldWidths(free, 6);
    FieldWidths(total, 6);
    Strcat(str, "Mem: ");
    CatNumber(str, free, 10);
    Strcat(str, "/");
    CatNumber(str, total, 10);
    Strcat(str, " KB free");
    assert str[0..] == str[..];
    text := Text(str, 0);
  }
}
