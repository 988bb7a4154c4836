/**
 Numbers as text: the digits `itoa` and `terminal_put_dec` produce, and the
 reader that takes them back.
 */
module Numbers {
  import opened Machine
  import opened Libc

  const INT_MAX: nat := 0x7fff_ffff

  function DigitChar(d: nat): char
    requires d < 36
  {
    if d < 10 then '0' + d as char else 'a' + (d - 10) as char
  }

  /** The value of a digit; 36 for any other character. */
  function DigitValue(c: char): (d: nat)
    ensures d <= 36
  {
    if '0' <= c <= '9' then (c - '0') as nat
    else if 'a' <= c <= 'z' then 10 + (c - 'a') as nat
    else 36
  }

  lemma ProductAtLeast(q: nat, base: nat)
    requires q > 0
    ensures q * base >= base
  {
    assert q * base == (q - 1) * base + base;
  }

  lemma Unit(n: nat, base: nat)
    requires base > 0
    ensures n == n / base * base + n % base && n % base < base && n / base >= 0
  {
  }

  /** A quotient is less than the number it comes from, and is zero only below the base. */
  lemma QuotientBounds(n: nat, q: nat, r: nat, base: nat)
    requires 2 <= base && n == q * base + r && r < base
    ensures n >= base <==> q > 0
    ensures n > 0 ==> q < n
  {
    if q > 0 {
      ProductAtLeast(q, base);
      assert q * base == q * 2 + q * (base - 2);
      assert q * (base - 2) >= 0;
    }
  }

  lemma DivisionShrinks(n: nat, base: nat)
    requires 2 <= base
    ensures n == n / base * base + n % base && n % base < base
    ensures n >= base <==> 0 < n / base
    ensures n > 0 ==> n / base < n
  {
    Unit(n, base);
    QuotientBounds(n, n / base, n % base, base);
  }

  lemma Difference(a: int, b: int, base: int)
    ensures (a - b) * base == a * base - b * base
  {
  }

  lemma QuotientUnique(q: nat, r: nat, k: nat, t: nat, base: nat)
    requires r < base && t < base && q * base + r == k * base + t
    ensures q == k && r == t
  {
    Difference(k, q, base);
    Difference(q, k, base);
    if q < k {
      ProductAtLeast(k - q, base);
    } else if k < q {
      ProductAtLeast(q - k, base);
    }
  }

  /** The digits of `n`, most significant first. */
  function Digits(n: nat, base: nat): (s: string)
    requires 2 <= base <= 36
    ensures s != ""
    decreases n
  {
    DivisionShrinks(n, base);
    if n < base then [DigitChar(n)] else Digits(n / base, base) + [DigitChar(n % base)]
  }

  /** Positional value. */
  function Value(s: string, base: nat): nat {
    if s == "" then 0 else Value(s[..|s| - 1], base) * base + DigitValue(s[|s| - 1])
  }

  predicate IsNumeral(s: string, base: nat) {
    && s != "" && (forall c :: c in s ==> DigitValue(c) < base)
    && (s[0] == '0' ==> |s| == 1)
  }

  /** The digits of `n` have the value `n`, and no leading zero. */
  lemma {:induction false} DigitsHaveValue(n: nat, base: nat)
    requires 2 <= base <= 36
    ensures Value(Digits(n, base), base) == n && IsNumeral(Digits(n, base), base)
    ensures Digits(n, base)[0] == '0' ==> n == 0
    decreases n
  {
    DivisionShrinks(n, base);
    var s := Digits(n, base);
    if n < base {
      assert s[..0] == "";
    } else {
      var front := Digits(n / base, base);
      DigitsHaveValue(n / base, base);
      assert s[..|s| - 1] == front;
      assert s[0] == front[0];
    }
  }

  /** They are the only such digits. */
  lemma {:induction false} NumeralIsDigits(s: string, base: nat)
    requires 2 <= base <= 36 && IsNumeral(s, base)
    ensures s == Digits(Value(s, base), base)
    decreases |s|
  {
    var front := s[..|s| - 1];
    var d := DigitValue(s[|s| - 1]);
    var n := Value(s, base);
    assert DigitChar(d) == s[|s| - 1];
    if |s| == 1 {
      assert front == "" && Value(front, base) == 0;
    } else {
      hide Digits;
      assert front[0] == s[0];
      assert forall c :: c in front ==> c in s;
      NumeralIsDigits(front, base);
      PositiveNumeral(front, base);
      DigitsMore(Value(front, base), base, d);
      assert s == front + [s[|s| - 1]];
    }
  }

  lemma DigitsMore(q: nat, base: nat, d: nat)
    requires 2 <= base <= 36 && d < base && q > 0
    ensures Digits(q * base + d, base) == Digits(q, base) + [DigitChar(d)]
  {
    QuotientOf(q, base, d);
  }

  lemma QuotientOf(q: nat, base: nat, d: nat)
    requires 2 <= base && d < base
    ensures (q * base + d) / base == q && (q * base + d) % base == d
    ensures q > 0 ==> q * base + d >= base
  {
    var n := q * base + d;
    Unit(n, base);
    QuotientUnique(n / base, n % base, q, d, base);
    QuotientBounds(n, q, d, base);
  }

  lemma {:induction false} PositiveNumeral(s: string, base: nat)
    requires 2 <= base <= 36 && s != "" && s[0] != '0' && forall c :: c in s ==> DigitValue(c) < base
    ensures Value(s, base) > 0
    decreases |s|
  {
    var front := s[..|s| - 1];
    if front != "" {
      assert front[0] == s[0];
      assert forall c :: c in front ==> c in s;
      PositiveNumeral(front, base);
      ProductAtLeast(Value(front, base), base);
    } else {
      assert s[0] in s && DigitValue(s[0]) > 0;
    }
  }

  // ---- itoa ---------------------------------------------------------------------

  function Backward(s: string): (t: string)
    ensures |t| == |s| && forall i :: 0 <= i < |t| ==> t[i] == s[|s| - 1 - i]
  {
    seq(|s|, i requires 0 <= i < |s| => s[|s| - 1 - i])
  }

  /** What `itoa` converts: in base 10 the absolute value, otherwise the 32-bit pattern. */
  function Magnitude(value: i32, base: nat): (n: nat)
    ensures value >= 0 ==> n == value
  {
    var v: int := value;
    if v >= 0 then v else if base == 10 then -v else U32_LIMIT + v
  }

  function Printed(value: i32, base: nat): string
    requires 2 <= base <= 36
  {
    (if value < 0 && base == 10 then "-" else "") + Digits(Magnitude(value, base), base)
  }

  /** In base 10 the text of a number is its digits behind a minus sign if it is negative; in any other base a negative
      number reads as the 32-bit pattern that stands for it. */
  lemma PrintedReads(value: i32, base: nat)
    requires 2 <= base <= 36
    ensures var (s, v: int) := (Printed(value, base), value);
            if base == 10 && v < 0 then |s| > 1 && s[0] == '-' && IsNumeral(s[1..], 10) && v + Value(s[1..], 10) == 0
            else IsNumeral(s, base) && Value(s, base) == v + if v < 0 then 0x1_0000_0000 else 0
  {
    var n := Magnitude(value, base);
    DigitsHaveValue(n, base);
    assert ("-" + Digits(n, base))[1..] == Digits(n, base);
    assert "" + Digits(n, base) == Digits(n, base);
  }

  lemma NoNulInDigits(n: nat, base: nat)
    requires 2 <= base <= 36
    ensures NUL !in Digits(n, base)
  {
    DigitsHaveValue(n, base);
    assert DigitValue(NUL) == 36;
  }

  lemma BackwardAppend(s: string, c: char)
    ensures Backward(s + [c]) == [c] + Backward(s)
  {
  }

  /** The loop of `itoa` over one digit. */
  lemma LastDigit(v: nat, base: nat)
    requires 2 <= base <= 36
    ensures Digits(v, base) == (if v / base > 0 then Digits(v / base, base) else "") + [DigitChar(v % base)]
    ensures v / base > 0 ==> v / base < v
  {
    DivisionShrinks(v, base);
    if v < base {
      QuotientOf(0, base, v);
    }
  }

  function Pending(more: bool, v: nat, base: nat): string
    requires 2 <= base <= 36
  {
    if more then Digits(v, base) else ""
  }

  lemma NothingBackward(n: nat, base: nat)
    requires 2 <= base <= 36
    ensures Pending(true, n, base) + Backward("") == Digits(n, base)
  {
  }

  lemma NothingPends(v: nat, base: nat)
    requires 2 <= base <= 36
    ensures Pending(false, v, base) == ""
  {
  }

  /** One digit moves from what is left of the number to what is written. */
  lemma OneBackward(v: nat, base: nat, q: nat, r: nat, done: string, c: char)
    requires 2 <= base <= 36 && q == v / base && r == v % base && r < 36 && c == DigitChar(r)
    ensures Pending(q > 0, q, base) + Backward(done + [c]) == Pending(true, v, base) + Backward(done)
    ensures |Pending(q > 0, q, base)| + 1 == |Pending(true, v, base)|
  {
    hide Digits, Backward;
    LastDigit(v, base);
    BackwardAppend(done, c);
    var rest := Pending(q > 0, q, base);
    assert rest + ([c] + Backward(done)) == rest + [c] + Backward(done);
  }

  /** Writes the digits of `n` from place `from`, last digit first. */
  method EmitBackward(n: nat, str: array<char>, from: nat, base: nat) returns (end: nat)
    requires 2 <= base <= 36 && from + |Digits(n, base)| < str.Length
    modifies str
    ensures end == from + |Digits(n, base)|
    ensures Backward(str[from..end]) == Digits(n, base)
    ensures str[..from] == old(str[..from])
  {
    hide Digits, Backward, Pending;
    var v: nat := n;
    end := from;
    var more := true;
    NothingBackward(n, base);
    assert str[from..end] == "";
    while more
      invariant from <= end < str.Length
      invariant end - from + |Pending(more, v, base)| == |Digits(n, base)|
      invariant str[..from] == old(str[..from])
      invariant Pending(more, v, base) + Backward(str[from..end]) == Digits(n, base)
      decreases more, v
    {
      var (q, r) := (v / base, v % base);
      DivisionShrinks(v, base);
      ghost var done := str[from..end];
      var c := DigitChar(r);
      OneBackward(v, base, q, r, done, c);
      str[end] := c;
      end := end + 1;
      assert str[from..end] == done + [c];
      v := q;
      more := v > 0;
    }
    NothingPends(v, base);
  }

  method ReverseBetween(str: array<char>, from: nat, end: nat)
    requires from < end <= str.Length
    modifies str
    ensures str[..from] == old(str[..from])
    ensures str[from..end] == Backward(old(str[from..end]))
    ensures str[end..] == old(str[end..])
  {
    ghost var before := str[..];
    var p1: int, p2: int := from, end - 1;
    while p1 < p2
      invariant from <= p1 <= p2 + 1 <= end && p1 - from == end - 1 - p2
      invariant forall i {:trigger str[i]} ::
                  0 <= i < str.Length && (i < from || end <= i || p1 <= i <= p2) ==> str[i] == before[i]
      invariant forall i {:trigger str[i]} ::
                  from <= i < end && (i < p1 || p2 < i) ==> str[i] == before[from + end - 1 - i]
    {
      str[p1], str[p2] := str[p2], str[p1];
      p1 := p1 + 1;
      p2 := p2 - 1;
    }
    ghost var (now, part) := (str[from..end], before[from..end]);
    forall k | 0 <= k < |now| ensures now[k] == Backward(part)[k] {
      var i := from + k;
      assert now[k] == str[i] && part[|part| - 1 - k] == before[from + end - 1 - i];
      assert i < p1 || p2 < i || i == from + end - 1 - i;
    }
    assert old(str[from..end]) == part;
    assert str[..from] == before[..from] && str[end..] == before[end..];
  }

  /** The digits of the value, after a minus sign if it is negative and the base is ten. */
  method Itoa(value: i32, str: array<char>, base: nat)
    requires 2 <= base <= 36 && (base == 10 ==> value > -0x8000_0000)
    requires |Printed(value, base)| < str.Length
    modifies str
    ensures Terminated(str[..]) && CStr(str[..]) == Printed(value, base)
  {
    var v: nat := if value >= 0 then value else U32_LIMIT + value;
    var p := 0;
    if value < 0 && base == 10 {
      v := -value;
      str[p] := '-';
      p := p + 1;
    }
    ghost var digits := Digits(v, base);
    var end := EmitBackward(v, str, p, base);
    assert str[..p] == if p == 1 then "-" else "";
    str[end] := NUL;
    assert Backward(str[p..end]) == digits;
    ReverseBetween(str, p, end);
    assert str[p..end] == digits;
    assert str[..end] == str[..p] + str[p..end];
    assert str[end] == str[end..][0];
    NoNulInDigits(v, base);
    CStrIs(str[..], end);
  }

  // ---- Reading a number back ----------------------------------------------------

  predicate IsDecimal(c: char) {
    '0' <= c <= '9'
  }

  function LeadingDigits(s: string): (t: string)
    ensures t <= s
  {
    if s != "" && IsDecimal(s[0]) then [s[0]] + LeadingDigits(s[1..]) else ""
  }

  lemma {:induction false} LeadingDigitsAre(s: string, k: nat)
    requires k <= |s| && (forall i :: 0 <= i < k ==> IsDecimal(s[i])) && (k == |s| || !IsDecimal(s[k]))
    ensures LeadingDigits(s) == s[..k]
  {
    if k > 0 {
      LeadingDigitsAre(s[1..], k - 1);
      assert s[..k] == [s[0]] + s[1..][..k - 1];
    }
  }

  lemma {:induction false} LeadingDigitsAreDecimal(s: string)
    ensures forall i :: 0 <= i < |LeadingDigits(s)| ==> IsDecimal(s[i])
  {
    if s != "" && IsDecimal(s[0]) {
      LeadingDigitsAreDecimal(s[1..]);
      forall i | 0 <= i < |LeadingDigits(s)| ensures IsDecimal(s[i]) {
        assert i > 0 ==> s[i] == s[1..][i - 1];
      }
    }
  }

  lemma {:induction false} LeadingDigitsEnd(s: string)
    ensures |LeadingDigits(s)| < |s| ==> !IsDecimal(s[|LeadingDigits(s)|])
  {
    if s != "" && IsDecimal(s[0]) {
      LeadingDigitsEnd(s[1..]);
    }
  }

  lemma {:induction false} PrefixValueIsLess(s: string, k: nat)
    requires k <= |s|
    ensures Value(s[..k], 10) <= Value(s, 10)
    decreases |s|
  {
    if k < |s| {
      var front := s[..|s| - 1];
      PrefixValueIsLess(front, k);
      assert front[..k] == s[..k];
    } else {
      assert s[..k] == s;
    }
  }

  /** The loop of `sleep`: the value of the digits a text begins with, reached without overflow. */
  method ReadNumber(s: string) returns (n: i32)
    requires Value(LeadingDigits(s), 10) <= INT_MAX
    ensures n == Value(LeadingDigits(s), 10)
  {
    hide LeadingDigits, Digits;
    ghost var digits := LeadingDigits(s);
    LeadingDigitsEnd(s);
    n := 0;
    var i := 0;
    while i < |s| && IsDecimal(s[i])
      invariant i <= |digits| && n == Value(s[..i], 10)
    {
      assert s[..i + 1][..i] == s[..i] && s[..i + 1] == digits[..i + 1];
      PrefixValueIsLess(digits, i + 1);
      n := n * 10 + (s[i] - '0') as int;
      i := i + 1;
    }
    LeadingDigitsAreDecimal(s);
    assert s[..i] == digits;
  }

  /** Reading what was printed gives the number back, whatever follows it. */
  lemma ReadsBack(n: nat, rest: string)
    requires rest == "" || !IsDecimal(rest[0])
    ensures Value(LeadingDigits(Digits(n, 10) + rest), 10) == n
  {
    var digits := Digits(n, 10);
    var s := digits + rest;
    DigitsHaveValue(n, 10);
    forall i | 0 <= i < |digits| ensures IsDecimal(s[i]) {
      assert s[i] == digits[i] && digits[i] in digits;
    }
    LeadingDigitsAre(s, |digits|);
    assert s[..|digits|] == digits;
  }

  // ---- Lengths ------------------------------------------------------------------

  function Power10(k: nat): (p: nat)
    ensures p > 0
  {
    if k == 0 then 1 else 10 * Power10(k - 1)
  }

  /** Fewer than 10^k means at most `k` decimal digits. */
  lemma {:induction false} DigitCount(n: nat, k: nat)
    requires k > 0
    ensures n < Power10(k) <==> |Digits(n, 10)| <= k
    decreases k
  {
    DivisionShrinks(n, 10);
    if k == 1 {
      assert Power10(1) == 10 * Power10(0);
    } else if n >= 10 {
      DigitCount(n / 10, k - 1);
    } else {
      assert Power10(k) >= 10;
    }
  }
}
