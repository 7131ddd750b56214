/** The bit arithmetic of `\u` escapes: accumulating the hex digits, and `append_utf8`. */
module CodeUnits {
  import opened Bytes
  import Utf8

  lemma Split6(c: bv16)
    ensures c as int == (c >> 6) as int * 64 + (c & 0x3F) as int && (c & 0x3F) as int < 64
  {
  }

  lemma Split12(c: bv16)
    ensures (c >> 6) as int == (c >> 12) as int * 64 + ((c >> 6) & 0x3F) as int && ((c >> 6) & 0x3F) as int < 64
  {
  }

  lemma Lead2(c: bv16)
    requires c < 0x800
    ensures (0xC0 | (c >> 6)) as int == 0xC0 + (c >> 6) as int
  {
  }

  lemma Lead3(c: bv16)
    ensures (0xE0 | (c >> 12)) as int == 0xE0 + (c >> 12) as int
  {
  }

  lemma Trail(c: bv16)
    ensures (0x80 | (c & 0x3F)) as int == 0x80 + (c & 0x3F) as int
  {
  }

  lemma Quotient(x: int, hi: int, lo: int)
    requires x == hi * 64 + lo && 0 <= lo < 64
    ensures x / 0x40 == hi && x % 0x40 == lo
  {
  }

  lemma TwoQuotients(x: int, high: int, hi: int, mid: int, lo: int)
    requires x == high * 64 + lo && 0 <= lo < 64 && high == hi * 64 + mid && 0 <= mid < 64
    ensures x / 0x1000 == hi && x / 0x40 % 0x40 == mid && x % 0x40 == lo
  {
    Quotient(x, high, lo);
    Quotient(high, hi, mid);
    assert x / 0x1000 == x / 0x40 / 0x40;
  }

  /** One more hex digit: `code <<= 4; code |= d`. */
  lemma PushDigit(c: bv16, d: bv16)
    requires c < 0x1000 && d < 16
    ensures ((c << 4) | d) as int == c as int * 16 + d as int
  {
  }

  lemma Ranges(c: bv16)
    ensures 0 <= c as int < 0x10000
    ensures (c < 0x80 <==> c as int < 0x80) && (c < 0x800 <==> c as int < 0x800) && (c < 0x1000 <==> c as int < 0x1000)
  {
  }

  lemma Digit(d: int)
    requires 0 <= d < 16
    ensures (d as bv16) as int == d && (d as bv16) < 16
  {
  }

  // ---- section 3 of RFC 3629, in numbers ----

  lemma OneByteForm(x: int)
    requires 0 <= x < 0x80
    ensures Utf8.EncodeOne(x) == [x]
  {
  }

  lemma TwoByteForm(x: int, hi: int, lo: int)
    requires 0x80 <= x < 0x800 && x == hi * 64 + lo && 0 <= lo < 64
    ensures 0 <= hi < 0x20 && Utf8.EncodeOne(x) == [0xC0 + hi, 0x80 + lo]
  {
    Quotient(x, hi, lo);
  }

  lemma ThreeByteForm(x: int, high: int, hi: int, mid: int, lo: int)
    requires 0x800 <= x < 0x10000 && x == high * 64 + lo && 0 <= lo < 64 && high == hi * 64 + mid && 0 <= mid < 64
    ensures 0 <= hi < 0x10 && Utf8.EncodeOne(x) == [0xE0 + hi, 0x80 + mid, 0x80 + lo]
  {
    TwoQuotients(x, high, hi, mid, lo);
  }

  // ---- the bytes the source casts to `char` ----

  function Lead2Of(c: bv16): byte
    requires c < 0x800
  {
    (0xC0 | (c >> 6)) as int
  }

  function Lead3Of(c: bv16): byte { (0xE0 | (c >> 12)) as int }

  function MiddleOf(c: bv16): byte { (0x80 | ((c >> 6) & 0x3F)) as int }

  function TrailOf(c: bv16): byte { (0x80 | (c & 0x3F)) as int }

  /** They are those of RFC 3629. */
  lemma TwoBits(c: bv16)
    requires 0x80 <= c < 0x800
    ensures 0x80 <= c as int < 0x800 && Utf8.EncodeOne(c as int) == [Lead2Of(c), TrailOf(c)]
  {
    Ranges(c);
    Split6(c);
    Lead2(c);
    Trail(c);
    TwoByteForm(c as int, (c >> 6) as int, (c & 0x3F) as int);
    hide Utf8.EncodeOne;
  }

  lemma ThreeBits(c: bv16)
    requires 0x800 <= c
    ensures 0x800 <= c as int < 0x10000 && Utf8.EncodeOne(c as int) == [Lead3Of(c), MiddleOf(c), TrailOf(c)]
  {
    Ranges(c);
    Split6(c);
    Split12(c);
    Lead3(c);
    Trail(c >> 6);
    Trail(c);
    ThreeByteForm(c as int, (c >> 6) as int, (c >> 12) as int, ((c >> 6) & 0x3F) as int, (c & 0x3F) as int);
    hide Utf8.EncodeOne;
  }

  // ---- the operations of the source ----

  /** `code <<= 4; code |= unsigned(d)`.  Sixteen bits hold all four digits. */
  method Push(code: bv16, d: int) returns (r: bv16)
    requires code as int < 0x1000 && 0 <= d < 16
    ensures r as int == code as int * 16 + d
  {
    Ranges(code);
    Digit(d);
    var digit := d as bv16;
    PushDigit(code, digit);
    r := (code << 4) | digit;
  }

  /** A unit below U+0080 is its own byte. */
  lemma OneBit(c: bv16)
    requires c < 0x80
    ensures 0 <= c as int < 0x80 && Utf8.EncodeOne(c as int) == [c as int]
  {
    Ranges(c);
    OneByteForm(c as int);
    hide Utf8.EncodeOne;
  }

  lemma Unit(c: bv16)
    ensures 0 <= c as int < 0x10000
  {
  }

  /** `append_utf8`: the UTF-8 form of section 3 of RFC 3629, of any 16-bit unit. */
  method AppendUtf8(out: Bytes, code: bv16) returns (r: Bytes)
    ensures 0 <= code as int < 0x10000 && r == out + Utf8.EncodeOne(code as int)
  {
    hide Utf8.EncodeOne, Lead2Of, Lead3Of, MiddleOf, TrailOf;
    Unit(code);
    r := out;
    if code < 0x80 {
      OneBit(code);
      r := r + [code as int];
    } else if code < 0x800 {
      TwoBits(code);
      r := r + [Lead2Of(code)];
      r := r + [TrailOf(code)];
    } else {
      ThreeBits(code);
      r := r + [Lead3Of(code)];
      r := r + [MiddleOf(code)];
      r := r + [TrailOf(code)];
    }
  }
}
