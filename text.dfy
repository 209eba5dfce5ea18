/**
 * The handful of Go string and formatting primitives that the client-side
 * views and the refresh log are built from: `strings.Replace(s, "\n", "\n    ", -1)`,
 * `strings.TrimPrefix`, `%x` of a byte slice, `%v` of an integer and of a
 * whole-second `time.Duration`.
 */
module Text {

  /** Indentation inserted after every newline of a log shown to the user. */
  const Pad: string := "    "

  /** Number of newline characters in `s`. */
  function Newlines(s: string): nat
  {
    if s == [] then 0 else (if s[0] == '\n' then 1 else 0) + Newlines(s[1..])
  }

  /** `strings.Replace(s, "\n", "\n    ", -1)`: every newline is followed by four spaces. */
  function Indent(s: string): (r: string)
    ensures |r| == |s| + 4 * Newlines(s)
  {
    if s == [] then []
    else (if s[0] == '\n' then "\n" + Pad else [s[0]]) + Indent(s[1..])
  }

  /** The inverse replacement: every "\n    " becomes "\n" again. */
  function Unindent(s: string): string
  {
    if s == [] then []
    else if |s| >= 5 && s[..5] == "\n" + Pad then "\n" + Unindent(s[5..])
    else [s[0]] + Unindent(s[1..])
  }

  /** A text starts with each of its leading parts. */
  lemma PrefixOfAppend(a: string, b: string)
    ensures a <= a + b
  {
    assert (a + b)[..|a|] == a;
  }

  lemma LeadingParts(a: string, b: string, c: string, d: string, e: string, f: string)
    ensures a + b <= a + b + c + d + e + f
    ensures a + b + c + d + e <= a + b + c + d + e + f
  {
    PrefixOfAppend(a + b + c + d + e, f);
    assert (a + b + c + d + e + f)[..|a + b|] == a + b;
  }

  /** Indenting is a character-by-character replacement, so it distributes over concatenation. */
  lemma {:induction false} IndentConcat(a: string, b: string)
    ensures Indent(a + b) == Indent(a) + Indent(b)
  {
    if a == [] {
      assert a + b == b;
    } else {
      assert (a + b)[0] == a[0];
      assert (a + b)[1..] == a[1..] + b;
      IndentConcat(a[1..], b);
    }
  }

  /** Nothing is lost by indenting: the replacement can be undone. */
  lemma {:induction false} UnindentIndent(s: string)
    ensures Unindent(Indent(s)) == s
  {
    if s != [] {
      var rest := Indent(s[1..]);
      UnindentIndent(s[1..]);
      if s[0] == '\n' {
        var r := "\n" + Pad + rest;
        assert r[..5] == "\n" + Pad;
        assert r[5..] == rest;
      } else {
        var r := [s[0]] + rest;
        assert r[0] == s[0];
        assert r[1..] == rest;
        assert |r| >= 5 ==> r[..5][0] == s[0];
      }
    }
  }

  /** In an indented text every newline is followed by the four-space pad. */
  lemma {:induction false} IndentedNewlines(s: string, i: nat)
    requires i < |Indent(s)| && Indent(s)[i] == '\n'
    ensures i + 5 <= |Indent(s)| && Indent(s)[i + 1..i + 5] == Pad
  {
    var r := Indent(s);
    var head := if s[0] == '\n' then "\n" + Pad else [s[0]];
    assert r == head + Indent(s[1..]);
    if i < |head| {
      assert i == 0 && s[0] == '\n';
      assert r[1..5] == Pad;
    } else {
      assert Indent(s[1..])[i - |head|] == '\n';
      IndentedNewlines(s[1..], i - |head|);
      SliceAfter(head, Indent(s[1..]), i + 1, i + 5);
    }
  }

  /** A slice that lies past the first part of a concatenation is a slice of the second. */
  lemma SliceAfter(a: string, b: string, lo: nat, hi: nat)
    requires |a| <= lo <= hi <= |a| + |b|
    ensures (a + b)[lo..hi] == b[lo - |a|..hi - |a|]
  {
  }

  /** `strings.TrimPrefix(s, prefix)`. */
  function TrimPrefix(s: string, prefix: string): (r: string)
    ensures prefix <= s ==> prefix + r == s
    ensures !(prefix <= s) ==> r == s
  {
    if prefix <= s then s[|prefix|..] else s
  }

  function Digit(d: nat): (c: char)
    requires d < 10
    ensures '0' <= c <= '9' && c as int - '0' as int == d
  {
    ['0', '1', '2', '3', '4', '5', '6', '7', '8', '9'][d]
  }

  /** `%v` of a non-negative integer: its shortest decimal form. */
  function Decimal(n: nat): (r: string)
    ensures |r| > 0
    ensures forall k :: 0 <= k < |r| ==> '0' <= r[k] <= '9'
  {
    if n < 10 then [Digit(n)] else Decimal(n / 10) + [Digit(n % 10)]
  }

  /** The number a string of decimal digits denotes. */
  function DecimalValue(s: string): int
  {
    if s == [] then 0 else DecimalValue(s[..|s| - 1]) * 10 + (s[|s| - 1] as int - '0' as int)
  }

  /** The decimal text of a number reads back as that number. */
  lemma {:induction false} DecimalRoundTrip(n: nat)
    ensures DecimalValue(Decimal(n)) == n
  {
    if n >= 10 {
      var r := Decimal(n);
      DecimalRoundTrip(n / 10);
      assert r[..|r| - 1] == Decimal(n / 10);
    }
  }

  /** `%v` of a whole number of seconds held in a Go `time.Duration`: "0s", "45s", "2m5s", "1h0m3s", "-7s". */
  function DurationText(seconds: int): (r: string)
    ensures |r| > 0 && r[|r| - 1] == 's'
    ensures (r[0] == '-') <==> seconds < 0
  {
    if seconds < 0 then "-" + UnsignedDuration(-seconds) else UnsignedDuration(seconds)
  }

  function UnsignedDuration(seconds: nat): (r: string)
    ensures |r| > 0 && r[|r| - 1] == 's' && '0' <= r[0] <= '9'
  {
    var h, m, s := seconds / 3600, seconds % 3600 / 60, seconds % 60;
    if h > 0 then Decimal(h) + "h" + Decimal(m) + "m" + Decimal(s) + "s"
    else if m > 0 then Decimal(m) + "m" + Decimal(s) + "s"
    else Decimal(s) + "s"
  }

  function HexDigit(d: nat): (c: char)
    requires d < 16
    ensures '0' <= c <= '9' || 'a' <= c <= 'f'
  {
    if d < 10 then ('0' as int + d) as char else ('a' as int + d - 10) as char
  }

  /** The value of one lower-case hex digit. */
  function HexValue(c: char): (d: nat)
    ensures d < 16
  {
    if '0' <= c <= '9' then c as int - '0' as int
    else if 'a' <= c <= 'f' then c as int - 'a' as int + 10
    else 0
  }

  lemma HexDigitValue(d: nat)
    requires d < 16
    ensures HexValue(HexDigit(d)) == d
  {
  }


  /** The two `%x` digits of one byte, high nibble first. */
  function Digits(b: bv8): string
  {
    [HexDigit(b as nat / 16), HexDigit(b as nat % 16)]
  }

  /** The byte two hex digits denote. */
  function Byte(hi: char, lo: char): bv8
  {
    (HexValue(hi) * 16 + HexValue(lo)) as bv8
  }

  /** Reads bytes back from their `%x` text, two digits per byte. */
  function Unhex(s: string): seq<bv8>
    requires |s| % 2 == 0
  {
    if s == [] then [] else [Byte(s[0], s[1])] + Unhex(s[2..])
  }

  /** `%x` of a byte slice: two lower-case hex digits per byte. */
  function Hex(v: seq<bv8>): (r: string)
    ensures |r| == 2 * |v|
    ensures forall k :: 0 <= k < |r| ==> '0' <= r[k] <= '9' || 'a' <= r[k] <= 'f'
  {
    if v == [] then [] else Digits(v[0]) + Hex(v[1..])
  }

  /** A byte is read back from its two hex digits. */
  lemma DigitsByte(b: bv8)
    ensures Byte(Digits(b)[0], Digits(b)[1]) == b
  {
    var n := b as nat;
    NibblesValue(n);
    assert HexValue(Digits(b)[0]) * 16 + HexValue(Digits(b)[1]) == n;
    ByteNat(b);
  }

  /** The two nibbles of a byte value, written as hex digits, read back as that value. */
  lemma NibblesValue(n: nat)
    requires n < 256
    ensures HexValue(HexDigit(n / 16)) * 16 + HexValue(HexDigit(n % 16)) == n
  {
    HexDigitValue(n / 16);
    HexDigitValue(n % 16);
  }

  /** A byte survives the round trip through its numeric value. */
  lemma ByteNat(b: bv8)
    ensures (b as nat) as bv8 == b
  {
  }

  /** `%x` loses nothing: the bytes can be read back from their text. */
  lemma {:induction false} UnhexHex(v: seq<bv8>)
    ensures Unhex(Hex(v)) == v
  {
    if v != [] {
      var d := Digits(v[0]);
      assert Hex(v) == d + Hex(v[1..]);
      assert (d + Hex(v[1..]))[2..] == Hex(v[1..]);
      DigitsByte(v[0]);
      UnhexHex(v[1..]);
      assert [v[0]] + v[1..] == v;
    }
  }

  /** Whole division is determined by quotient and remainder. */
  lemma DivModUnique(a: nat, d: nat, q: nat, r: nat)
    requires 0 < d && r < d && a == q * d + r
    ensures a / d == q && a % d == r
  {
    var q', r' := a / d, a % d;
    assert (q' - q) * d == r - r';
    if q' > q {
      MulAtLeast(q' - q, d);
    } else if q' < q {
      MulAtLeast(q - q', d);
    }
  }

  lemma MulAtLeast(k: int, d: nat)
    requires k >= 1
    ensures k * d >= d
  {
  }

  /** Hours, minutes under 60 and seconds under 60 that make up a duration are its quotients and remainders. */
  lemma DurationArith(a: nat, h: nat, m: nat, s: nat)
    requires m < 60 && s < 60 && h * 3600 + m * 60 + s == a
    ensures a / 3600 == h && a % 3600 / 60 == m && a % 60 == s
  {
    DivModUnique(a, 3600, h, m * 60 + s);
    DivModUnique(m * 60 + s, 60, m, s);
    assert a == (h * 60 + m) * 60 + s;
    DivModUnique(a, 60, h * 60 + m, s);
  }

  /**
   * The duration text names the hours, minutes and seconds that make up the
   * duration, after a sign when it is negative: the hours only when there
   * are any, the minutes when there are hours or minutes, the seconds always.
   */
  lemma DurationFields(seconds: int, h: nat, m: nat, s: nat)
    requires m < 60 && s < 60
    requires h * 3600 + m * 60 + s == (if seconds < 0 then -seconds else seconds)
    ensures var sign := if seconds < 0 then "-" else "";
      && (h > 0 ==> DurationText(seconds) == sign + (Decimal(h) + "h" + Decimal(m) + "m" + Decimal(s) + "s"))
      && (h == 0 && m > 0 ==> DurationText(seconds) == sign + (Decimal(m) + "m" + Decimal(s) + "s"))
      && (h == 0 && m == 0 ==> DurationText(seconds) == sign + (Decimal(s) + "s"))
  {
    var a := if seconds < 0 then -seconds else seconds;
    DurationArith(a, h, m, s);
    if seconds >= 0 {
      assert DurationText(seconds) == "" + UnsignedDuration(a);
    }
  }
}
