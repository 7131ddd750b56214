/** UTF-8 as in section 3 of RFC 3629, and the looser form in which each half of a surrogate
    pair is a three-byte sequence of its own. */
module Utf8 {
  import opened Bytes

  type Code = c: int | 0 <= c <= 0x10FFFF

  type Str = seq<Code>

  predicate IsHigh(c: int) { 0xD800 <= c <= 0xDBFF }

  predicate IsLow(c: int) { 0xDC00 <= c <= 0xDFFF }

  predicate IsSurrogate(c: int) { 0xD800 <= c <= 0xDFFF }

  predicate NoSurrogates(cs: Str) { forall i | 0 <= i < |cs| :: !IsSurrogate(cs[i]) }

  /** Up to 0xFFFF this is `Parser::append_utf8`, whose shifts and masks are in `CodeUnits`. */
  function EncodeOne(c: Code): (b: Bytes)
    ensures 1 <= |b| <= 4
  {
    if c < 0x80 then [c]
    else if c < 0x800 then [0xC0 + c / 0x40, 0x80 + c % 0x40]
    else if c < 0x10000 then [0xE0 + c / 0x1000, 0x80 + c / 0x40 % 0x40, 0x80 + c % 0x40]
    else [0xF0 + c / 0x40000, 0x80 + c / 0x1000 % 0x40, 0x80 + c / 0x40 % 0x40, 0x80 + c % 0x40]
  }

  function Encode(cs: Str): Bytes {
    if cs == [] then [] else EncodeOne(cs[0]) + Encode(cs[1..])
  }

  predicate IsCont(b: byte) { 0x80 <= b < 0xC0 }

  function Value2(a: int, b: int): int { (a - 0xC0) * 0x40 + (b - 0x80) }

  function Value3(a: int, b: int, c: int): int { (a - 0xE0) * 0x1000 + (b - 0x80) * 0x40 + (c - 0x80) }

  function Value4(a: int, b: int, c: int, d: int): int {
    (a - 0xF0) * 0x40000 + (b - 0x80) * 0x1000 + (c - 0x80) * 0x40 + (d - 0x80)
  }

  /** The first code point of `s` and its length.  `strict` refuses surrogates, as RFC 3629
      does; overlong forms and values past 0x10FFFF are refused either way. */
  function DecodeOne(s: Bytes, strict: bool): (r: Option<(Code, nat)>)
    ensures r.Some? ==> 1 <= r.value.1 <= |s|
  {
    if s == [] then None
    else if s[0] < 0x80 then Some((s[0], 1))
    else if 0xC0 <= s[0] < 0xE0 && |s| >= 2 && IsCont(s[1]) then
      var c := Value2(s[0], s[1]);
      if c >= 0x80 then Some((c, 2)) else None
    else if 0xE0 <= s[0] < 0xF0 && |s| >= 3 && IsCont(s[1]) && IsCont(s[2]) then
      var c := Value3(s[0], s[1], s[2]);
      if c >= 0x800 && !(strict && IsSurrogate(c)) then Some((c, 3)) else None
    else if 0xF0 <= s[0] < 0xF8 && |s| >= 4 && IsCont(s[1]) && IsCont(s[2]) && IsCont(s[3]) then
      var c := Value4(s[0], s[1], s[2], s[3]);
      if 0x10000 <= c <= 0x10FFFF then Some((c, 4)) else None
    else None
  }

  function Decode(s: Bytes, strict: bool): Option<Str> {
    if s == [] then Some([])
    else
      match DecodeOne(s, strict)
      case None => None
      case Some((c, n)) =>
        match Decode(s[n..], strict)
        case None => None
        case Some(cs) => Some([c] + cs)
  }

  predicate IsUtf8(s: Bytes) { Decode(s, true).Some? }

  lemma Split3(c: int)
    requires 0 <= c < 0x10000
    ensures 0 <= c / 0x1000 < 0x10
    ensures c == c / 0x1000 * 0x1000 + c / 0x40 % 0x40 * 0x40 + c % 0x40
  {
    assert c / 0x1000 == c / 0x40 / 0x40;
  }

  lemma Split4(c: int)
    requires 0 <= c <= 0x10FFFF
    ensures 0 <= c / 0x40000 < 0x8
    ensures c == c / 0x40000 * 0x40000 + c / 0x1000 % 0x40 * 0x1000 + c / 0x40 % 0x40 * 0x40 + c % 0x40
  {
    assert c / 0x1000 == c / 0x40 / 0x40;
    assert c / 0x40000 == c / 0x1000 / 0x40;
  }

  lemma DecodeEncodeOne(c: Code, k: Bytes, strict: bool)
    ensures DecodeOne(EncodeOne(c) + k, strict) ==
            if strict && IsSurrogate(c) then None else Some((c, |EncodeOne(c)|))
  {
    var s := EncodeOne(c) + k;
    if c < 0x80 {
    } else if c < 0x800 {
      assert s[0] == 0xC0 + c / 0x40 && s[1] == 0x80 + c % 0x40;
    } else if c < 0x10000 {
      Split3(c);
      assert s[0] == 0xE0 + c / 0x1000 && s[1] == 0x80 + c / 0x40 % 0x40 && s[2] == 0x80 + c % 0x40;
    } else {
      Split4(c);
      assert s[0] == 0xF0 + c / 0x40000 && s[1] == 0x80 + c / 0x1000 % 0x40;
      assert s[2] == 0x80 + c / 0x40 % 0x40 && s[3] == 0x80 + c % 0x40;
    }
  }

  lemma Join3(a: int, b: int, d: int, c: int)
    requires 0 <= a && 0 <= b < 0x40 && 0 <= d < 0x40 && c == a * 0x1000 + b * 0x40 + d
    ensures c / 0x1000 == a && c / 0x40 % 0x40 == b && c % 0x40 == d && c / 0x40 == a * 0x40 + b
  {
    assert c / 0x40 == a * 0x40 + b;
  }

  lemma EncodeDecodeOne(s: Bytes, strict: bool)
    requires DecodeOne(s, strict).Some?
    ensures var (c, n) := DecodeOne(s, strict).value;
            EncodeOne(c) == s[..n] && (strict ==> !IsSurrogate(c))
  {
    var (c, n) := DecodeOne(s, strict).value;
    if n == 3 {
      Join3(s[0] - 0xE0, s[1] - 0x80, s[2] - 0x80, c);
      assert EncodeOne(c) == [s[0], s[1], s[2]];
    } else if n == 4 {
      var high: int := s[0] - 0xF0;
      Join3(high * 0x40 + (s[1] - 0x80), s[2] - 0x80, s[3] - 0x80, c);
      assert c / 0x40000 == c / 0x1000 / 0x40;
      assert EncodeOne(c) == [s[0], s[1], s[2], s[3]];
    } else if n == 2 {
      assert EncodeOne(c) == [s[0], s[1]];
    }
  }

  lemma DecodeStep(c: Code, t: Bytes, strict: bool)
    requires strict ==> !IsSurrogate(c)
    ensures Decode(EncodeOne(c) + t, strict) ==
            match Decode(t, strict) case None => None case Some(ds) => Some([c] + ds)
  {
    DecodeEncodeOne(c, t, strict);
    hide EncodeOne, DecodeOne;
    assert (EncodeOne(c) + t)[|EncodeOne(c)|..] == t;
  }

  /** Encoding first and then decoding, in front of anything. */
  lemma {:induction false} DecodePrefix(cs: Str, k: Bytes, strict: bool)
    requires strict ==> NoSurrogates(cs)
    ensures Decode(Encode(cs) + k, strict) ==
            match Decode(k, strict) case None => None case Some(ds) => Some(cs + ds)
  {
    hide EncodeOne, DecodeOne, Decode;
    if cs == [] {
      assert Encode(cs) + k == k;
      if Decode(k, strict).Some? { assert cs + Decode(k, strict).value == Decode(k, strict).value; }
    } else {
      Assoc(EncodeOne(cs[0]), Encode(cs[1..]), k);
      DecodeStep(cs[0], Encode(cs[1..]) + k, strict);
      DecodePrefix(cs[1..], k, strict);
      HeadTail(cs);
      if Decode(k, strict).Some? { Assoc([cs[0]], cs[1..], Decode(k, strict).value); }
    }
  }

  /** The loose decoder inverts the encoder on every sequence of code points. */
  lemma DecodeEncode(cs: Str)
    ensures Decode(Encode(cs), false) == Some(cs)
  {
    DecodePrefix(cs, [], false);
    assert Encode(cs) + [] == Encode(cs) && cs + [] == cs;
  }

  /** Either decoder accepts only what the encoder writes: one spelling per sequence. */
  lemma {:induction false} EncodeDecode(s: Bytes, strict: bool)
    requires Decode(s, strict).Some?
    ensures Encode(Decode(s, strict).value) == s
    ensures strict ==> NoSurrogates(Decode(s, strict).value)
  {
    hide EncodeOne, DecodeOne;
    if s != [] {
      EncodeDecodeOne(s, strict);
      var (c, n) := DecodeOne(s, strict).value;
      EncodeDecode(s[n..], strict);
      TailOfCons(c, Decode(s[n..], strict).value);
      assert s == s[..n] + s[n..];
    }
  }

  /** The encoder's output is UTF-8 exactly when no surrogate went in. */
  lemma Utf8IffNoSurrogates(cs: Str)
    ensures IsUtf8(Encode(cs)) <==> NoSurrogates(cs)
    ensures NoSurrogates(cs) ==> Decode(Encode(cs), true) == Some(cs)
  {
    if NoSurrogates(cs) {
      DecodePrefix(cs, [], true);
      assert Encode(cs) + [] == Encode(cs) && cs + [] == cs;
    } else if IsUtf8(Encode(cs)) {
      EncodeDecode(Encode(cs), true);
      var ds := Decode(Encode(cs), true).value;
      DecodeEncode(cs);
      DecodeEncode(ds);
      assert false;
    }
  }

  lemma {:induction false} EncodeConcat(a: Str, b: Str)
    ensures Encode(a + b) == Encode(a) + Encode(b)
  {
    ConsConcat(a, b);
    if a == [] {
      assert [] + Encode(b) == Encode(b);
    } else {
      hide EncodeOne;
      EncodeConcat(a[1..], b);
      Assoc(EncodeOne(a[0]), Encode(a[1..]), Encode(b));
    }
  }

  /** UTF-8 is closed under concatenation, and decoding respects it. */
  lemma DecodeConcat(s: Bytes, t: Bytes, strict: bool)
    requires Decode(s, strict).Some? && Decode(t, strict).Some?
    ensures Decode(s + t, strict) == Some(Decode(s, strict).value + Decode(t, strict).value)
  {
    EncodeDecode(s, strict);
    DecodePrefix(Decode(s, strict).value, t, strict);
  }

  predicate Ascii(s: Bytes) { forall i | 0 <= i < |s| :: s[i] < 0x80 }

  /** An ASCII string is its own encoding. */
  lemma {:induction false} AsciiEncode(s: Bytes)
    requires Ascii(s)
    ensures Encode(s) == s
  {
    if s != [] {
      AsciiEncode(s[1..]);
      HeadTail(s);
    }
  }

  lemma AsciiDecode(s: Bytes, strict: bool)
    requires Ascii(s)
    ensures Decode(s, strict) == Some(s)
  {
    AsciiEncode(s);
    DecodePrefix(s, [], strict);
    assert Encode(s) + [] == s && s + [] == s;
  }
}
