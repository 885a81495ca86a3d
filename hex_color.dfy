/**
 * The hex colour codec and channel blend shared by every tool of the theme
 * family: table-driven decoding of `#RGB`, `#RGBA`, `#RRGGBB` and
 * `#RRGGBBAA` (the hex notation of section 5.2 of CSS Color Module Level 4),
 * lowercase formatting into a fixed-length buffer, the overflow-free channel
 * average and the midpoint of two colours.
 *
 * Text is a sequence of characters. The source decodes the UTF-8 bytes of
 * its input; every byte of a non-ASCII character is 0x80 or above and
 * decodes as invalid, so a string holding one is rejected either way.
 */
module HexColor {
  import opened Wrappers
  import opened Text

  /** An unsigned 8-bit integer (`u8`). */
  type u8 = x: int | 0 <= x < 256

  /** The three 8-bit channels `[r, g, b]` of a colour. */
  datatype Rgb = Rgb(r: u8, g: u8, b: u8)

  /** A decoded colour: its channels and, for the 4- and 8-digit forms, its alpha. */
  type Rgba = (Rgb, Option<u8>)

  /** Marks a byte that is not a hex digit in the decode table. */
  const INVALID: u8 := 0xFF

  /** The lowercase digit alphabet used by the formatter. */
  const HEX_DIGITS: string := "0123456789abcdef"

  predicate IsHexDigit(c: char)
  {
    '0' <= c <= '9' || 'a' <= c <= 'f' || 'A' <= c <= 'F'
  }

  /**
   * A `u8` as the 8-bit word the source's bit operators act on, built bit by
   * bit from the top down so that only word-to-number facts are needed.
   */
  function ByteOf(a: u8): (x: bv8)
    ensures x as int == a
    decreases a
  {
    if a == 0 then 0
    else
      var y := ByteOf(a / 2);
      var b: bv8 := if a % 2 == 0 then 0 else 1;
      ShiftIn(y, b);
      (y << 1) | b
  }

  lemma ShiftIn(y: bv8, b: bv8)
    requires y as int < 128 && b as int < 2
    ensures ((y << 1) | b) as int == 2 * y as int + b as int
  {
  }

  /** `expand_nibble`: `(n << 4) | n` on a `u8`, which is `17 * n` for a nibble. */
  function ExpandNibble(n: u8): (r: u8)
    ensures n < 16 ==> r == 17 * n
  {
    var x := ByteOf(n);
    ExpandBits(x);
    ((x << 4) | x) as int
  }

  lemma ExpandBits(x: bv8)
    ensures x < 16 ==> ((x << 4) | x) as int == 17 * x as int
  {
    if x < 16 {
      assert (x << 4) | x == x * 17;
      Times17(x);
    }
  }

  lemma Times17(x: bv8)
    requires x < 16
    ensures (x * 17) as int == 17 * x as int
  {
  }

  /** Entry `b` of the 256-entry decode table `HEX_DECODE`. */
  function HexDecodeEntry(b: nat): (v: u8)
    requires b < 256
    ensures v != INVALID <==> IsHexDigit(b as char)
    ensures v != INVALID ==> v < 16
  {
    if '0' as int <= b <= '9' as int then b - '0' as int
    else if 'a' as int <= b <= 'f' as int then b - 'a' as int + 10
    else if 'A' as int <= b <= 'F' as int then b - 'A' as int + 10
    else INVALID
  }

  /** `build_hex_decode`: fills the table with two `while` loops. */
  method BuildHexDecode() returns (table: array<u8>)
    ensures table.Length == 256
    ensures forall b :: 0 <= b < 256 ==> table[b] == HexDecodeEntry(b)
  {
    table := new u8[256](_ => INVALID);
    var i := 0;
    while i < 10
      invariant 0 <= i <= 10
      invariant forall b :: 0 <= b < 256 ==>
        table[b] == if '0' as int <= b < '0' as int + i then HexDecodeEntry(b) else INVALID
    {
      table['0' as int + i] := i;
      i := i + 1;
    }
    i := 0;
    while i < 6
      invariant 0 <= i <= 6
      invariant forall b :: 0 <= b < 256 ==>
        table[b] == if '0' as int <= b <= '9' as int
                       || 'a' as int <= b < 'a' as int + i
                       || 'A' as int <= b < 'A' as int + i
                    then HexDecodeEntry(b) else INVALID
    {
      var value := 10 + i;
      table['a' as int + i] := value;
      table['A' as int + i] := value;
      i := i + 1;
    }
  }

  /** `nibble_value`: the table entry for a character (invalid beyond one byte). */
  function NibbleValue(c: char): u8
  {
    if c as int < 256 then HexDecodeEntry(c as int) else INVALID
  }

  /** `decode_nibble`: the value of a hex digit of either case. */
  function DecodeNibble(c: char): (r: Option<u8>)
    ensures r.Some? <==> IsHexDigit(c)
    ensures r.Some? ==> r.value < 16
  {
    var value := NibbleValue(c);
    if value != INVALID then Some(value) else None
  }

  /** The value of a digit names its position in the lowercase alphabet. */
  lemma NibbleSpelling(c: char)
    requires IsHexDigit(c)
    ensures HEX_DIGITS[DecodeNibble(c).value] == AsciiLower(c)
  {
  }

  /** The case of a digit does not change its value. */
  lemma DecodeNibbleLower(c: char)
    ensures DecodeNibble(AsciiLower(c)) == DecodeNibble(c)
  {
  }

  /** The lowercase digit at position `k` of the alphabet decodes to `k`. */
  lemma DecodeDigit(k: nat)
    requires k < 16
    ensures DecodeNibble(HEX_DIGITS[k]) == Some(k)
  {
  }

  /**
   * The value of `acc` after the loop of `decode_hex_u32` has consumed `s`;
   * None once a non-digit has been met. `acc << 4` on a `u32` drops the top
   * four bits, which is the remainder modulo 2^28 shifted up.
   */
  function HexFold(s: seq<char>): (r: Option<nat>)
    ensures r.Some? <==> forall i :: 0 <= i < |s| ==> IsHexDigit(s[i])
    ensures r.Some? ==> r.value < 0x1_0000_0000
    decreases |s|
  {
    if s == [] then Some(0)
    else
      match HexFold(s[..|s| - 1])
      case None => None
      case Some(acc) =>
        match DecodeNibble(s[|s| - 1])
        case None => None
        case Some(n) => Some((acc % 0x1000_0000) * 16 + n)
  }

  /** `decode_hex_u32`: folds the digits into a `u32` accumulator. */
  method DecodeHexU32(bytes: seq<char>) returns (r: Option<nat>)
    ensures r == HexFold(bytes)
  {
    var acc: nat := 0;
    for i := 0 to |bytes|
      invariant HexFold(bytes[..i]) == Some(acc)
    {
      assert bytes[..i + 1][..i] == bytes[..i];
      var d := DecodeNibble(bytes[i]);
      if d.None? {
        HexFoldStaysNone(bytes, i + 1);
        return None;
      }
      acc := (acc % 0x1000_0000) * 16 + d.value;
    }
    assert bytes[..|bytes|] == bytes;
    return Some(acc);
  }

  lemma HexFoldStaysNone(s: seq<char>, i: nat)
    requires i <= |s| && HexFold(s[..i]).None?
    ensures HexFold(s).None?
  {
  }

  /** The digit of a character known to be a hex digit. */
  function Digit(c: char): (d: nat)
    requires IsHexDigit(c)
    ensures d < 16
  {
    DecodeNibble(c).value
  }

  predicate AllHex(s: seq<char>)
  {
    forall i :: 0 <= i < |s| ==> IsHexDigit(s[i])
  }

  /** The plain base-16 value of a run of digits. */
  function HexValue(s: seq<char>): nat
    requires AllHex(s)
    decreases |s|
  {
    if s == [] then 0 else HexValue(s[..|s| - 1]) * 16 + Digit(s[|s| - 1])
  }

  function Pow16(n: nat): nat
  {
    if n == 0 then 1 else 16 * Pow16(n - 1)
  }

  /** Up to eight digits fit a `u32`, so the fold never drops a bit. */
  lemma {:induction false} HexFoldExact(s: seq<char>)
    requires AllHex(s) && |s| <= 8
    ensures HexFold(s) == Some(HexValue(s))
    ensures HexValue(s) < Pow16(|s|)
    decreases |s|
  {
    if s != [] {
      var p := s[..|s| - 1];
      HexFoldExact(p);
      Pow16Bound(|p|);
      var acc := HexValue(p);
      assert acc % 0x1000_0000 == acc;
      assert HexFold(s) == Some(acc * 16 + Digit(s[|s| - 1]));
      assert Pow16(|s|) == 16 * Pow16(|p|);
    }
  }

  lemma Pow16Bound(n: nat)
    requires n <= 7
    ensures Pow16(n) <= 0x1000_0000
  {
    Pow16Mono(n, 7);
    assert Pow16(7) == 0x1000_0000;
  }

  lemma {:induction false} Pow16Mono(n: nat, m: nat)
    requires n <= m
    ensures Pow16(n) <= Pow16(m)
    decreases m
  {
    if n < m { Pow16Mono(n, m - 1); }
  }

  /** The value of a concatenation of digit runs. */
  lemma {:induction false} HexValueAppend(a: seq<char>, b: seq<char>)
    requires AllHex(a) && AllHex(b)
    ensures AllHex(a + b)
    ensures HexValue(a + b) == HexValue(a) * Pow16(|b|) + HexValue(b)
    decreases |b|
  {
    AllHexAppend(a, b);
    if b == [] {
      assert a + b == a;
    } else {
      var b' := b[..|b| - 1];
      AppendLast(a, b);
      HexValueAppend(a, b');
      var x, y, p, d := HexValue(a), HexValue(b'), Pow16(|b'|), Digit(b[|b| - 1]);
      assert HexValue(a + b) == HexValue(a + b') * 16 + d;
      Regroup16(x, p, y, d);
    }
  }

  lemma AllHexAppend(a: seq<char>, b: seq<char>)
    requires AllHex(a) && AllHex(b)
    ensures AllHex(a + b)
  {
    assert forall i :: |a| <= i < |a + b| ==> (a + b)[i] == b[i - |a|];
  }

  /** Dropping the last character of a concatenation with a non-empty right side. */
  lemma AppendLast(a: seq<char>, b: seq<char>)
    requires b != []
    ensures (a + b)[..|a + b| - 1] == a + b[..|b| - 1]
    ensures (a + b)[|a + b| - 1] == b[|b| - 1]
  {
  }

  lemma Regroup16(x: int, p: int, y: int, d: int)
    ensures (x * p + y) * 16 + d == x * (16 * p) + (y * 16 + d)
  {
    assert (x * p) * 16 == x * (16 * p);
  }

  /** Two digits give the byte `16 * hi + lo`. */
  lemma HexValuePair(p: seq<char>)
    requires |p| == 2 && AllHex(p)
    ensures HexValue(p) == 16 * Digit(p[0]) + Digit(p[1])
  {
    HexValueSingle(p[..1]);
  }

  lemma HexValueSingle(p: seq<char>)
    requires |p| == 1 && AllHex(p)
    ensures HexValue(p) == Digit(p[0])
  {
    assert p[..0] == [];
  }

  /** The 3-digit form: a nibble per channel, widened by `expand_nibble`; no alpha. */
  function Short3(raw: nat): Rgba
  {
    (Rgb(ExpandNibble((raw / 0x100) % 0x10),
         ExpandNibble((raw / 0x10) % 0x10),
         ExpandNibble(raw % 0x10)), None)
  }

  /** The 4-digit form: as the 3-digit one, and the last nibble is alpha. */
  function Short4(raw: nat): Rgba
  {
    (Rgb(ExpandNibble((raw / 0x1000) % 0x10),
         ExpandNibble((raw / 0x100) % 0x10),
         ExpandNibble((raw / 0x10) % 0x10)),
     Some(ExpandNibble(raw % 0x10)))
  }

  /** The 6-digit form: the bytes `raw >> 16`, `raw >> 8`, `raw` truncated to `u8`. */
  function Long6(raw: nat): Rgba
  {
    (Rgb((raw / 0x1_0000) % 0x100, (raw / 0x100) % 0x100, raw % 0x100), None)
  }

  /** The 8-digit form: the bytes `raw >> 24`, `raw >> 16`, `raw >> 8`, and `raw` as alpha. */
  function Long8(raw: nat): Rgba
  {
    (Rgb((raw / 0x100_0000) % 0x100, (raw / 0x1_0000) % 0x100, (raw / 0x100) % 0x100),
     Some(raw % 0x100))
  }

  /** The decoder for a given number of digits; None for any other count. */
  function DecodeForm(data: seq<char>): Option<Rgba>
  {
    match HexFold(data)
    case None => None
    case Some(raw) =>
      if |data| == 3 then Some(Short3(raw))
      else if |data| == 4 then Some(Short4(raw))
      else if |data| == 6 then Some(Long6(raw))
      else if |data| == 8 then Some(Long8(raw))
      else None
  }

  /**
   * `parse_hex_rgba_u8`: strips the leading `#` and dispatches on the number
   * of digits that follow.
   */
  function ParseHexRgbaU8(input: string): (r: Option<Rgba>)
    ensures r.Some? <==>
      && |input| in {4, 5, 7, 9}
      && input[0] == '#'
      && forall i :: 1 <= i < |input| ==> IsHexDigit(input[i])
    ensures r.Some? ==> (r.value.1.Some? <==> |input| in {5, 9})
  {
    if |input| == 0 || input[0] != '#' then None
    else
      var data := input[1..];
      assert forall i :: 1 <= i < |input| ==> input[i] == data[i - 1];
      if |data| in {3, 4, 6, 8} then DecodeForm(data) else None
  }

  /** A 3-digit run is `256 * d0 + 16 * d1 + d2`. */
  lemma HexValue3(s: seq<char>)
    requires |s| == 3 && AllHex(s)
    ensures HexValue(s) == 256 * Digit(s[0]) + 16 * Digit(s[1]) + Digit(s[2])
  {
    assert s[..2][..1] == s[..1];
    HexValueSingle(s[..1]);
  }

  /** A 4-digit run is `4096 * d0 + 256 * d1 + 16 * d2 + d3`. */
  lemma HexValue4(s: seq<char>)
    requires |s| == 4 && AllHex(s)
    ensures HexValue(s) == 4096 * Digit(s[0]) + 256 * Digit(s[1]) + 16 * Digit(s[2]) + Digit(s[3])
  {
    HexValue3(s[..3]);
  }

  /** The byte spelled by the two digits at `i` and `i + 1`. */
  function PairByte(s: seq<char>, i: nat): u8
    requires i + 1 < |s| && IsHexDigit(s[i]) && IsHexDigit(s[i + 1])
  {
    16 * Digit(s[i]) + Digit(s[i + 1])
  }

  /** Appending two digits shifts the value up by a byte. */
  lemma HexValueAppendPair(a: seq<char>, p: seq<char>)
    requires AllHex(a) && |p| == 2 && AllHex(p)
    ensures AllHex(a + p)
    ensures HexValue(a + p) == HexValue(a) * 0x100 + PairByte(p, 0)
  {
    var ap := a + p;
    assert ap[..|ap| - 1] == a + p[..1];
    assert (a + p[..1])[..|a|] == a;
  }

  lemma HexValueBytes3(s: seq<char>)
    requires |s| == 6 && AllHex(s)
    ensures HexValue(s) == PairByte(s, 0) * 0x1_0000 + PairByte(s, 2) * 0x100 + PairByte(s, 4)
  {
    assert s[..4] == s[..2] + s[2..4];
    assert s == s[..4] + s[4..];
    HexValuePair(s[..2]);
    HexValueAppendPair(s[..2], s[2..4]);
    HexValueAppendPair(s[..4], s[4..]);
  }

  lemma HexValueBytes4(s: seq<char>)
    requires |s| == 8 && AllHex(s)
    ensures HexValue(s) == PairByte(s, 0) * 0x100_0000 + PairByte(s, 2) * 0x1_0000
                           + PairByte(s, 4) * 0x100 + PairByte(s, 6)
  {
    assert s == s[..6] + s[6..];
    HexValueBytes3(s[..6]);
    HexValueAppendPair(s[..6], s[6..]);
  }

  lemma Split16(q: nat, r: nat)
    requires r < 0x10
    ensures (q * 0x10 + r) / 0x10 == q && (q * 0x10 + r) % 0x10 == r
  {
  }

  lemma Split256(q: nat, r: nat)
    requires r < 0x100
    ensures (q * 0x100 + r) / 0x100 == q && (q * 0x100 + r) % 0x100 == r
  {
  }

  lemma Split4K(q: nat, r: nat)
    requires r < 0x1000
    ensures (q * 0x1000 + r) / 0x1000 == q
  {
  }

  lemma Split64K(q: nat, r: nat)
    requires r < 0x1_0000
    ensures (q * 0x1_0000 + r) / 0x1_0000 == q
  {
  }

  lemma Split16M(q: nat, r: nat)
    requires r < 0x100_0000
    ensures (q * 0x100_0000 + r) / 0x100_0000 == q
  {
  }

  lemma Nibbles3(a: nat, b: nat, c: nat)
    requires a < 16 && b < 16 && c < 16
    ensures (256 * a + 16 * b + c) / 0x100 % 0x10 == a
    ensures (256 * a + 16 * b + c) / 0x10 % 0x10 == b
    ensures (256 * a + 16 * b + c) % 0x10 == c
  {
    Split256(a, 16 * b + c);
    Split16(16 * a + b, c);
    Split16(a, b);
  }

  lemma Nibbles4(a: nat, b: nat, c: nat, d: nat)
    requires a < 16 && b < 16 && c < 16 && d < 16
    ensures (4096 * a + 256 * b + 16 * c + d) / 0x1000 % 0x10 == a
    ensures (4096 * a + 256 * b + 16 * c + d) / 0x100 % 0x10 == b
    ensures (4096 * a + 256 * b + 16 * c + d) / 0x10 % 0x10 == c
    ensures (4096 * a + 256 * b + 16 * c + d) % 0x10 == d
  {
    Split4K(a, 256 * b + 16 * c + d);
    Split256(16 * a + b, 16 * c + d);
    Split16(256 * a + 16 * b + c, d);
    Split16(a, b);
    Split16(16 * a + b, c);
  }

  lemma Bytes3(a: nat, b: nat, c: nat)
    requires a < 256 && b < 256 && c < 256
    ensures (a * 0x1_0000 + b * 0x100 + c) / 0x1_0000 % 0x100 == a
    ensures (a * 0x1_0000 + b * 0x100 + c) / 0x100 % 0x100 == b
    ensures (a * 0x1_0000 + b * 0x100 + c) % 0x100 == c
  {
    Split64K(a, b * 0x100 + c);
    Split256(a * 0x100 + b, c);
    Split256(a, b);
  }

  lemma Bytes4(a: nat, b: nat, c: nat, d: nat)
    requires a < 256 && b < 256 && c < 256 && d < 256
    ensures (a * 0x100_0000 + b * 0x1_0000 + c * 0x100 + d) / 0x100_0000 % 0x100 == a
    ensures (a * 0x100_0000 + b * 0x1_0000 + c * 0x100 + d) / 0x1_0000 % 0x100 == b
    ensures (a * 0x100_0000 + b * 0x1_0000 + c * 0x100 + d) / 0x100 % 0x100 == c
    ensures (a * 0x100_0000 + b * 0x1_0000 + c * 0x100 + d) % 0x100 == d
  {
    var x := a * 0x100_0000 + b * 0x1_0000 + c * 0x100 + d;
    Split16M(a, b * 0x1_0000 + c * 0x100 + d);
    Split64K(a * 0x100 + b, c * 0x100 + d);
    Split256(a * 0x1_0000 + b * 0x100 + c, d);
    Split256(a, b);
    Split256(a * 0x100 + b, c);
    assert x == (a * 0x100 + b) * 0x1_0000 + (c * 0x100 + d);
    assert x == (a * 0x1_0000 + b * 0x100 + c) * 0x100 + d;
  }

  /** `DecodeForm` once the digits are known to fold to `raw`. */
  lemma DecodeFormOf(data: seq<char>, raw: nat)
    requires HexFold(data) == Some(raw)
    ensures DecodeForm(data) ==
      if |data| == 3 then Some(Short3(raw))
      else if |data| == 4 then Some(Short4(raw))
      else if |data| == 6 then Some(Long6(raw))
      else if |data| == 8 then Some(Long8(raw))
      else None
  {
  }

  lemma DecodeShort3(data: seq<char>)
    requires |data| == 3 && AllHex(data)
    ensures DecodeForm(data) ==
      Some((Rgb(17 * Digit(data[0]), 17 * Digit(data[1]), 17 * Digit(data[2])), None))
  {
    var a, b, c := Digit(data[0]), Digit(data[1]), Digit(data[2]);
    var raw := HexValue(data);
    HexFoldExact(data);
    HexValue3(data);
    DecodeFormOf(data, raw);
    Short3Digits(a, b, c, raw);
  }

  lemma Short3Digits(a: nat, b: nat, c: nat, raw: nat)
    requires a < 16 && b < 16 && c < 16
    requires raw == 256 * a + 16 * b + c
    ensures Short3(raw) == (Rgb(17 * a, 17 * b, 17 * c), None)
  {
    Nibbles3(a, b, c);
    assert Short3(raw) == (Rgb(ExpandNibble(a), ExpandNibble(b), ExpandNibble(c)), None);
  }

  lemma DecodeShort4(data: seq<char>)
    requires |data| == 4 && AllHex(data)
    ensures DecodeForm(data) ==
      Some((Rgb(17 * Digit(data[0]), 17 * Digit(data[1]), 17 * Digit(data[2])),
            Some(17 * Digit(data[3]))))
  {
    var a, b, c, d := Digit(data[0]), Digit(data[1]), Digit(data[2]), Digit(data[3]);
    var raw := HexValue(data);
    HexFoldExact(data);
    HexValue4(data);
    DecodeFormOf(data, raw);
    Short4Digits(a, b, c, d, raw);
  }

  lemma Short4Digits(a: nat, b: nat, c: nat, d: nat, raw: nat)
    requires a < 16 && b < 16 && c < 16 && d < 16
    requires raw == 4096 * a + 256 * b + 16 * c + d
    ensures Short4(raw) == (Rgb(17 * a, 17 * b, 17 * c), Some(17 * d))
  {
    Nibbles4(a, b, c, d);
    assert Short4(raw) == (Rgb(ExpandNibble(a), ExpandNibble(b), ExpandNibble(c)), Some(ExpandNibble(d)));
  }

  lemma DecodeLong6(data: seq<char>)
    requires |data| == 6 && AllHex(data)
    ensures DecodeForm(data) ==
      Some((Rgb(PairByte(data, 0), PairByte(data, 2), PairByte(data, 4)), None))
  {
    var a: nat, b: nat, c: nat := PairByte(data, 0), PairByte(data, 2), PairByte(data, 4);
    FoldBytes3(data);
    DecodeFormOf(data, a * 0x1_0000 + b * 0x100 + c);
    Long6Bytes(a, b, c);
  }

  lemma FoldBytes3(data: seq<char>)
    requires |data| == 6 && AllHex(data)
    ensures HexFold(data) == Some(PairByte(data, 0) * 0x1_0000 + PairByte(data, 2) * 0x100 + PairByte(data, 4))
  {
    HexFoldExact(data);
    var v := HexValue(data);
    HexValueBytes3(data);
    assert HexFold(data) == Some(v);
  }

  lemma Long6Bytes(a: nat, b: nat, c: nat)
    requires a < 256 && b < 256 && c < 256
    ensures Long6(a * 0x1_0000 + b * 0x100 + c) == (Rgb(a, b, c), None)
  {
    Bytes3(a, b, c);
  }

  lemma DecodeLong8(data: seq<char>)
    requires |data| == 8 && AllHex(data)
    ensures DecodeForm(data) ==
      Some((Rgb(PairByte(data, 0), PairByte(data, 2), PairByte(data, 4)), Some(PairByte(data, 6))))
  {
    var a: nat, b: nat, c: nat, d: nat := PairByte(data, 0), PairByte(data, 2), PairByte(data, 4), PairByte(data, 6);
    FoldBytes4(data);
    DecodeFormOf(data, a * 0x100_0000 + b * 0x1_0000 + c * 0x100 + d);
    Long8Bytes(a, b, c, d);
  }

  lemma FoldBytes4(data: seq<char>)
    requires |data| == 8 && AllHex(data)
    ensures HexFold(data) == Some(PairByte(data, 0) * 0x100_0000 + PairByte(data, 2) * 0x1_0000
                                  + PairByte(data, 4) * 0x100 + PairByte(data, 6))
  {
    HexFoldExact(data);
    var v := HexValue(data);
    HexValueBytes4(data);
    assert HexFold(data) == Some(v);
  }

  lemma Long8Bytes(a: nat, b: nat, c: nat, d: nat)
    requires a < 256 && b < 256 && c < 256 && d < 256
    ensures Long8(a * 0x100_0000 + b * 0x1_0000 + c * 0x100 + d) == (Rgb(a, b, c), Some(d))
  {
    Bytes4(a, b, c, d);
  }

  /**
   * The 3- and 4-digit forms: each digit `n` becomes the byte `17 * n`; the
   * fourth digit, when present, is alpha.
   */
  lemma ParseShorthand(input: string)
    requires |input| in {4, 5} && input[0] == '#' && AllHex(input[1..])
    ensures ParseHexRgbaU8(input) ==
      Some((Rgb(17 * Digit(input[1]), 17 * Digit(input[2]), 17 * Digit(input[3])),
            if |input| == 5 then Some(17 * Digit(input[4])) else None))
  {
    var data := input[1..];
    assert ParseHexRgbaU8(input) == DecodeForm(data);
    assert data[0] == input[1] && data[1] == input[2] && data[2] == input[3];
    if |data| == 3 {
      DecodeShort3(data);
    } else {
      assert data[3] == input[4];
      DecodeShort4(data);
    }
  }

  /**
   * The 6- and 8-digit forms: consecutive digit pairs give red, green, blue
   * and, for 8 digits, alpha.
   */
  lemma ParseLonghand(input: string)
    requires |input| in {7, 9} && input[0] == '#' && AllHex(input[1..])
    ensures ParseHexRgbaU8(input) ==
      Some((Rgb(PairByte(input, 1), PairByte(input, 3), PairByte(input, 5)),
            if |input| == 9 then Some(PairByte(input, 7)) else None))
  {
    var data := input[1..];
    assert ParseHexRgbaU8(input) == DecodeForm(data);
    assert forall i :: 0 <= i < |data| ==> data[i] == input[i + 1];
    assert PairByte(data, 0) == PairByte(input, 1);
    assert PairByte(data, 2) == PairByte(input, 3);
    assert PairByte(data, 4) == PairByte(input, 5);
    if |data| == 6 {
      DecodeLong6(data);
    } else {
      assert PairByte(data, 6) == PairByte(input, 7);
      DecodeLong8(data);
    }
  }

  /** Decoding `HexFold` ignores the case of the digits. */
  lemma {:induction false} HexFoldLower(s: seq<char>)
    ensures HexFold(Lower(s)) == HexFold(s)
    decreases |s|
  {
    if s != [] {
      var p := s[..|s| - 1];
      assert Lower(s)[..|s| - 1] == Lower(p);
      HexFoldLower(p);
      DecodeNibbleLower(s[|s| - 1]);
    }
  }

  /** Letter case is irrelevant to parsing. */
  lemma ParseIgnoresCase(input: string)
    ensures ParseHexRgbaU8(Lower(input)) == ParseHexRgbaU8(input)
  {
    if |input| > 0 {
      assert Lower(input)[1..] == Lower(input[1..]);
      HexFoldLower(input[1..]);
    }
  }

  /** The two lowercase digits of a byte. */
  function Hex2(c: u8): string
  {
    [HEX_DIGITS[c / 16], HEX_DIGITS[c % 16]]
  }

  /**
   * The text `format_hex_color` writes: `#`, then the high and the low
   * nibble (`byte >> 4`, `byte & 0x0f`) of each channel and of alpha.
   */
  function FormatHex(rgb: Rgb, alpha: Option<u8>): string
  {
    "#" + Hex2(rgb.r) + Hex2(rgb.g) + Hex2(rgb.b)
      + match alpha case None => "" case Some(a) => Hex2(a)
  }

  /** The bytes `format_hex_color` writes out, in order: red, green, blue, then alpha if any. */
  function Channels(rgb: Rgb, alpha: Option<u8>): seq<u8>
  {
    [rgb.r, rgb.g, rgb.b] + match alpha case None => [] case Some(a) => [a]
  }

  /** Byte `j` of the channels sits at positions `1 + 2j` (high nibble) and `2 + 2j` (low nibble). */
  lemma FormatHexAt(rgb: Rgb, alpha: Option<u8>)
    ensures |FormatHex(rgb, alpha)| == 1 + 2 * |Channels(rgb, alpha)|
    ensures FormatHex(rgb, alpha)[0] == '#'
    ensures forall j :: 0 <= j < |Channels(rgb, alpha)| ==>
      && FormatHex(rgb, alpha)[1 + 2 * j] == HEX_DIGITS[Channels(rgb, alpha)[j] / 16]
      && FormatHex(rgb, alpha)[2 + 2 * j] == HEX_DIGITS[Channels(rgb, alpha)[j] % 16]
  {
    var f, ch := FormatHex(rgb, alpha), Channels(rgb, alpha);
    var r, g, b := rgb.r, rgb.g, rgb.b;
    var six := [HEX_DIGITS[r / 16], HEX_DIGITS[r % 16], HEX_DIGITS[g / 16],
      HEX_DIGITS[g % 16], HEX_DIGITS[b / 16], HEX_DIGITS[b % 16]];
    match alpha
    case None =>
      assert f == ['#'] + six;
      assert ch == [r, g, b];
    case Some(a) =>
      assert f == ['#'] + six + [HEX_DIGITS[a / 16], HEX_DIGITS[a % 16]];
      assert ch == [r, g, b, a];
  }

  /** A seven-character string whose digits spell the channels of `c` is the text written for `c`. */
  lemma FormatsAs(hex: string, c: Rgb)
    requires |hex| == 7 && hex[0] == '#'
    requires hex[1] == HEX_DIGITS[c.r / 16] && hex[2] == HEX_DIGITS[c.r % 16]
    requires hex[3] == HEX_DIGITS[c.g / 16] && hex[4] == HEX_DIGITS[c.g % 16]
    requires hex[5] == HEX_DIGITS[c.b / 16] && hex[6] == HEX_DIGITS[c.b % 16]
    ensures FormatHex(c, None) == hex
  {
    FormatHexAt(c, None);
    var f := FormatHex(c, None);
    var ch := Channels(c, None);
    assert ch[0] == c.r && ch[1] == c.g && ch[2] == c.b;
    assert f[1 + 2 * 0] == hex[1] && f[2 + 2 * 0] == hex[2];
    assert f[1 + 2 * 1] == hex[3] && f[2 + 2 * 1] == hex[4];
    assert f[1 + 2 * 2] == hex[5] && f[2 + 2 * 2] == hex[6];
    assert f == hex;
  }

  /** `format_hex_color`: writes the digits into a buffer of 7 or 9 characters. */
  method FormatHexColor(rgb: Rgb, alpha: Option<u8>) returns (s: string)
    ensures s == FormatHex(rgb, alpha)
  {
    ghost var f := FormatHex(rgb, alpha);
    FormatHexAt(rgb, alpha);
    ghost var ch := Channels(rgb, alpha);
    var len := 7 + if alpha.Some? then 2 else 0;
    var buf := new char[len];
    buf[0] := '#';
    var idx := 1;
    var channels := [rgb.r, rgb.g, rgb.b];
    assert channels == ch[..3];
    for k := 0 to 3
      invariant idx == 1 + 2 * k
      invariant forall i :: 0 <= i < idx ==> buf[i] == f[i]
    {
      buf[idx] := HEX_DIGITS[channels[k] / 16];
      buf[idx + 1] := HEX_DIGITS[channels[k] % 16];
      idx := idx + 2;
    }
    if alpha.Some? {
      assert ch[3] == alpha.value;
      buf[idx] := HEX_DIGITS[alpha.value / 16];
      buf[idx + 1] := HEX_DIGITS[alpha.value % 16];
    }
    s := buf[..];
  }

  /** The formatted text is `#` and lowercase digits: 7 characters, or 9 with alpha. */
  lemma FormatHead(rgb: Rgb, alpha: Option<u8>)
    ensures |FormatHex(rgb, alpha)| == if alpha.Some? then 9 else 7
    ensures FormatHex(rgb, alpha)[0] == '#'
  {
  }

  lemma FormatShape(rgb: Rgb, alpha: Option<u8>)
    ensures |FormatHex(rgb, alpha)| == if alpha.Some? then 9 else 7
    ensures FormatHex(rgb, alpha)[0] == '#'
    ensures forall i :: 1 <= i < |FormatHex(rgb, alpha)| ==> FormatHex(rgb, alpha)[i] in HEX_DIGITS
  {
    FormatHexAt(rgb, alpha);
    var f := FormatHex(rgb, alpha);
    forall i | 1 <= i < |f| ensures f[i] in HEX_DIGITS {
      var j := (i - 1) / 2;
      assert i == 1 + 2 * j || i == 2 + 2 * j;
    }
  }

  /** A byte's two digits spell the byte back. */
  lemma DigitsSpell(c: u8)
    ensures IsHexDigit(HEX_DIGITS[c / 16]) && IsHexDigit(HEX_DIGITS[c % 16])
    ensures 16 * Digit(HEX_DIGITS[c / 16]) + Digit(HEX_DIGITS[c % 16]) == c
  {
    DecodeDigit(c / 16);
    DecodeDigit(c % 16);
  }

  /** The digits `format_hex_color` writes spell each channel back. */
  lemma FormatSpells(rgb: Rgb, alpha: Option<u8>)
    ensures AllHex(FormatHex(rgb, alpha)[1..])
    ensures forall j :: 0 <= j < |Channels(rgb, alpha)| ==>
      && IsHexDigit(FormatHex(rgb, alpha)[1 + 2 * j])
      && IsHexDigit(FormatHex(rgb, alpha)[2 + 2 * j])
      && PairByte(FormatHex(rgb, alpha), 1 + 2 * j) == Channels(rgb, alpha)[j]
  {
    var s, ch := FormatHex(rgb, alpha), Channels(rgb, alpha);
    FormatHexAt(rgb, alpha);
    forall j | 0 <= j < |ch|
      ensures IsHexDigit(s[1 + 2 * j]) && IsHexDigit(s[2 + 2 * j])
      ensures PairByte(s, 1 + 2 * j) == ch[j]
    {
      DigitsSpell(ch[j]);
    }
    forall i | 0 <= i < |s[1..]| ensures IsHexDigit(s[1..][i]) {
      var j := i / 2;
      assert i + 1 == 1 + 2 * j || i + 1 == 2 + 2 * j;
    }
  }

  /** Round trip: parsing what `format_hex_color` wrote gives back the channels and alpha. */
  lemma ParseFormat(rgb: Rgb, alpha: Option<u8>)
    ensures ParseHexRgbaU8(FormatHex(rgb, alpha)) == Some((rgb, alpha))
  {
    var s, ch := FormatHex(rgb, alpha), Channels(rgb, alpha);
    FormatSpells(rgb, alpha);
    FormatShape(rgb, alpha);
    ParseLonghand(s);
    assert ch[0] == rgb.r && ch[1] == rgb.g && ch[2] == rgb.b;
    assert alpha.Some? ==> ch[3] == alpha.value;
  }

  /** Formatting the byte spelled by two digits gives those digits in lowercase. */
  lemma PairByteFormats(s: seq<char>, i: nat)
    requires i + 1 < |s| && IsHexDigit(s[i]) && IsHexDigit(s[i + 1])
    ensures HEX_DIGITS[PairByte(s, i) / 16] == AsciiLower(s[i])
    ensures HEX_DIGITS[PairByte(s, i) % 16] == AsciiLower(s[i + 1])
  {
    var hi := DigitLower(s[i]);
    var lo := DigitLower(s[i + 1]);
    Split16(hi, lo);
    var p := PairByte(s, i);
    assert p == hi * 0x10 + lo;
    assert p / 16 == hi && p % 16 == lo;
  }

  /** A digit's value indexes its lowercase spelling in the alphabet. */
  lemma DigitLower(c: char) returns (d: nat)
    requires IsHexDigit(c)
    ensures d == Digit(c) && d < 16 && HEX_DIGITS[d] == AsciiLower(c)
  {
    d := Digit(c);
  }

  /** For a 6- or 8-digit input, formatting what was parsed gives its lowercase form. */
  lemma FormatParse(input: string)
    requires |input| in {7, 9} && ParseHexRgbaU8(input).Some?
    ensures FormatHex(ParseHexRgbaU8(input).value.0, ParseHexRgbaU8(input).value.1) == Lower(input)
  {
    var rgb, alpha := ParseHexRgbaU8(input).value.0, ParseHexRgbaU8(input).value.1;
    var f, ch, lower := FormatHex(rgb, alpha), Channels(rgb, alpha), Lower(input);
    ParsedChannels(input);
    FormatHexAt(rgb, alpha);
    SameDigits(input, ch, f, lower);
  }

  /** Text that spells, pair by pair, the bytes read from the digit pairs of `input` is `input` in lowercase. */
  lemma SameDigits(input: string, ch: seq<u8>, f: string, lower: string)
    requires 2 * |ch| + 1 == |input| && input[0] == '#'
    requires forall i :: 1 <= i < |input| ==> IsHexDigit(input[i])
    requires forall j :: 0 <= j < |ch| ==> ch[j] == PairByte(input, 1 + 2 * j)
    requires |f| == 1 + 2 * |ch| && f[0] == '#'
    requires forall j :: 0 <= j < |ch| ==>
      f[1 + 2 * j] == HEX_DIGITS[ch[j] / 16] && f[2 + 2 * j] == HEX_DIGITS[ch[j] % 16]
    requires |lower| == |input| && forall i :: 0 <= i < |input| ==> lower[i] == AsciiLower(input[i])
    ensures f == lower
  {
    forall j | 0 <= j < |ch|
      ensures f[1 + 2 * j] == lower[1 + 2 * j] && f[2 + 2 * j] == lower[2 + 2 * j]
    {
      assert IsHexDigit(input[1 + 2 * j]) && IsHexDigit(input[2 + 2 * j]);
      PairByteFormats(input, 1 + 2 * j);
      assert ch[j] == PairByte(input, 1 + 2 * j);
      assert f[1 + 2 * j] == HEX_DIGITS[ch[j] / 16] && f[2 + 2 * j] == HEX_DIGITS[ch[j] % 16];
      assert lower[1 + 2 * j] == AsciiLower(input[1 + 2 * j]);
      assert lower[2 + 2 * j] == AsciiLower(input[2 + 2 * j]);
    }
    forall i | 0 <= i < |input| ensures f[i] == lower[i] {
      if i > 0 {
        var j := (i - 1) / 2;
        assert i == 1 + 2 * j || i == 2 + 2 * j;
      }
    }
  }

  /** The channels parsed from a 6- or 8-digit input are its digit pairs. */
  lemma ParsedChannels(input: string)
    requires |input| in {7, 9} && ParseHexRgbaU8(input).Some?
    ensures input[0] == '#' && forall i :: 1 <= i < |input| ==> IsHexDigit(input[i])
    ensures var ch := Channels(ParseHexRgbaU8(input).value.0, ParseHexRgbaU8(input).value.1);
      && 2 * |ch| + 1 == |input|
      && forall j :: 0 <= j < |ch| ==> ch[j] == PairByte(input, 1 + 2 * j)
  {
    assert AllHex(input[1..]) by {
      forall i | 0 <= i < |input[1..]| ensures IsHexDigit(input[1..][i]) {
        assert input[1..][i] == input[i + 1];
      }
    }
    ParseLonghand(input);
  }

  lemma WideSum(x: bv8, y: bv8)
    ensures (x as bv9 + y as bv9) as int == x as int + y as int
  {
  }

  lemma Half(v: bv9)
    ensures (v >> 1) as int == v as int / 2
  {
  }

  /** The carry-free form of the sum: `a + b == 2 * (a & b) + (a ^ b)`, halved. */
  lemma Trick(x: bv8, y: bv8)
    ensures ((x & y) + ((x ^ y) >> 1)) as bv9 == (x as bv9 + y as bv9) >> 1
  {
  }

  lemma Narrow(v: bv8)
    ensures (v as bv9) as int == v as int
  {
  }

  lemma Link(r: bv8, s: bv9, x: bv8, y: bv8)
    requires s == x as bv9 + y as bv9
    requires r as bv9 == s >> 1
    ensures r as int == (x as int + y as int) / 2
  {
    WideSum(x, y);
    Half(s);
    Narrow(r);
  }

  /** The source's expression on two `u8` values; `+` on `bv8` wraps like `wrapping_add`. */
  function AverageBits(x: bv8, y: bv8): bv8
  {
    (x & y) + ((x ^ y) >> 1)
  }

  lemma AvgBits(x: bv8, y: bv8)
    ensures AverageBits(x, y) as int == (x as int + y as int) / 2
  {
    Trick(x, y);
    Link(AverageBits(x, y), x as bv9 + y as bv9, x, y);
  }

  /**
   * `average_channel`: `(a & b).wrapping_add((a ^ b) >> 1)` on `u8`. The
   * wrapping add never wraps: the result is the floor of the mean, which
   * lies between the two channels.
   */
  function AverageChannel(a: u8, b: u8): (r: u8)
    ensures r == (a + b) / 2
    ensures (if a <= b then a else b) <= r <= (if a <= b then b else a)
  {
    var x, y := ByteOf(a), ByteOf(b);
    AvgBytes(a, b, x, y);
    AverageBits(x, y) as int
  }

  lemma AvgBytes(a: u8, b: u8, x: bv8, y: bv8)
    requires x as int == a && y as int == b
    ensures AverageBits(x, y) as int == (a + b) / 2
    ensures (if a <= b then a else b) <= AverageBits(x, y) as int <= (if a <= b then b else a)
  {
    AvgBits(x, y);
    MeanBetween(a, b);
  }

  lemma MeanBetween(a: int, b: int)
    ensures (if a <= b then a else b) <= (a + b) / 2 <= (if a <= b then b else a)
  {
  }

  /** `strict_rgb`: the channels of a colour that must parse (the source panics otherwise). */
  function StrictRgb(input: string): Rgb
    requires ParseHexRgbaU8(input).Some?
  {
    ParseHexRgbaU8(input).value.0
  }

  /** The channel-wise average of two colours. */
  function AverageRgb(x: Rgb, y: Rgb): Rgb
  {
    Rgb(AverageChannel(x.r, y.r), AverageChannel(x.g, y.g), AverageChannel(x.b, y.b))
  }

  /**
   * `midpoint_hex`: the per-channel floor average of two colours, formatted
   * without alpha whatever alpha the inputs carried.
   */
  function MidpointHex(a: string, b: string): (r: string)
    requires ParseHexRgbaU8(a).Some? && ParseHexRgbaU8(b).Some?
    ensures |r| == 7 && r[0] == '#'
    ensures ParseHexRgbaU8(r) == Some((Rgb((StrictRgb(a).r + StrictRgb(b).r) / 2,
                                           (StrictRgb(a).g + StrictRgb(b).g) / 2,
                                           (StrictRgb(a).b + StrictRgb(b).b) / 2), None))
    ensures r == FormatHex(AverageRgb(StrictRgb(a), StrictRgb(b)), None)
  {
    var x, y := StrictRgb(a), StrictRgb(b);
    MidpointFacts(a, b);
    FormatHex(AverageRgb(x, y), None)
  }

  lemma MidpointFacts(a: string, b: string)
    requires ParseHexRgbaU8(a).Some? && ParseHexRgbaU8(b).Some?
    ensures var r := FormatHex(AverageRgb(StrictRgb(a), StrictRgb(b)), None);
      && |r| == 7 && r[0] == '#'
      && ParseHexRgbaU8(r) == Some((Rgb((StrictRgb(a).r + StrictRgb(b).r) / 2,
                                        (StrictRgb(a).g + StrictRgb(b).g) / 2,
                                        (StrictRgb(a).b + StrictRgb(b).b) / 2), None))
  {
    var c := AverageRgb(StrictRgb(a), StrictRgb(b));
    FormatHead(c, None);
    ParseFormat(c, None);
  }

  /** The midpoint does not depend on the order of its arguments. */
  lemma MidpointSymmetric(a: string, b: string)
    requires ParseHexRgbaU8(a).Some? && ParseHexRgbaU8(b).Some?
    ensures MidpointHex(a, b) == MidpointHex(b, a)
  {
    assert AverageRgb(StrictRgb(a), StrictRgb(b)) == AverageRgb(StrictRgb(b), StrictRgb(a));
  }

  /** The midpoint of a 6-digit colour with itself is its lowercase form. */
  lemma MidpointSelf(a: string)
    requires |a| == 7 && ParseHexRgbaU8(a).Some?
    ensures MidpointHex(a, a) == Lower(a)
  {
    var c := StrictRgb(a);
    assert AverageRgb(c, c) == c;
    FormatParse(a);
  }

  /** A theme file's `scope`: one string or a list of strings. */
  datatype Scope = S(s: string) | V(v: seq<string>)

  /**
   * `serde_helpers::deserialize_scope`: a string scope is kept, a list is
   * joined with `", "`, and a missing scope stays missing.
   */
  function DeserializeScope(scope: Option<Scope>): (r: Option<string>)
    ensures r.Some? <==> scope.Some?
    ensures scope.Some? && scope.value.S? ==> r == Some(scope.value.s)
    ensures scope.Some? && scope.value.V? ==> r == Some(Join(scope.value.v, ", "))
  {
    match scope
    case None => None
    case Some(S(s)) => Some(s)
    case Some(V(v)) => Some(Join(v, ", "))
  }
}
