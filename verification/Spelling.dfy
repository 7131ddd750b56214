/** The spellings of JSON, byte by byte: which bytes are blanks, hex digits and escapes and what they
    stand for, in which form strings are written, and which numbers are floats.  The tables are
    spelled out here, so that they hold of the parsers and printers whatever these are built from. */
module Spelling {
  import opened Bytes
  import opened Grammar
  import opened Descent
  import opened DescentProofs
  import opened CppJson
  import opened PyText
  import opened PyJson
  import opened RoundTrip
  import opened Utf8

  // ---- hex digits ----

  const LOWER_HEX: Bytes := L("0123456789abcdef")
  const UPPER_HEX: Bytes := L("0123456789ABCDEF")

  /** The sixteen digits in either case, and no other byte. */
  lemma HexTable(b: byte)
    ensures |LOWER_HEX| == |UPPER_HEX| == 16
    ensures forall i | 0 <= i < 16 :: IsHex(LOWER_HEX[i]) && HexVal(LOWER_HEX[i]) == i
    ensures forall i | 0 <= i < 16 :: IsHex(UPPER_HEX[i]) && HexVal(UPPER_HEX[i]) == i
    ensures IsHex(b) <==> b in LOWER_HEX || b in UPPER_HEX
  {
    if 0x30 <= b <= 0x39 { assert LOWER_HEX[b - 0x30] == b; }
    if 0x61 <= b <= 0x66 { assert LOWER_HEX[b - 0x61 + 10] == b; }
    if 0x41 <= b <= 0x46 { assert UPPER_HEX[b - 0x41 + 10] == b; }
  }

  /** Lower-case letters made capitals. */
  function Upper(h: Bytes): (u: Bytes)
    ensures |u| == |h|
  {
    seq(|h|, i requires 0 <= i < |h| => if 0x61 <= h[i] <= 0x66 then h[i] - 0x20 else h[i])
  }

  /** The case of a hex digit does not matter. */
  lemma CaseFree(h: Bytes)
    requires IsHex4(h)
    ensures IsHex4(Upper(h)) && Hex4(Upper(h)) == Hex4(h)
  {
    var u := Upper(h);
    assert forall i | 0 <= i < 4 :: IsHex(u[i]) && HexVal(u[i]) == HexVal(h[i]);
  }

  /** Every 16-bit unit is read back from its text in capitals. */
  lemma UpperBack(n: int)
    requires 0 <= n < 0x10000
    ensures IsHex4(Upper(Hex4Text(n))) && Hex4(Upper(Hex4Text(n))) == n
  {
    Hex4Back(n);
    CaseFree(Hex4Text(n));
  }

  function UpperItem(item: Item): Item { if item.Uni? then Uni(Upper(item.h)) else item }

  function UpperItems(items: seq<Item>): seq<Item> {
    if items == [] then [] else [UpperItem(items[0])] + UpperItems(items[1..])
  }

  lemma {:induction false} UpperValue(items: seq<Item>)
    requires ItemsWf(items)
    ensures ItemsWf(UpperItems(items)) && ItemsValue(UpperItems(items)) == ItemsValue(items)
  {
    if items != [] {
      var item := items[0];
      assert item.Wf() && ItemsWf(items[1..]);
      UpperValue(items[1..]);
      if item.Uni? { CaseFree(item.h); }
      assert ItemValue(UpperItem(item)) == ItemValue(item);
      var us := UpperItems(items);
      assert us[1..] == UpperItems(items[1..]);
      forall i | 0 <= i < |us| ensures us[i].Wf() { if i > 0 { assert us[i] == us[1..][i - 1]; } }
    }
  }

  /** A string with its escapes in capitals is the same string, in both languages. */
  lemma SameInCapitals(items: seq<Item>, stod: Stod)
    requires ItemsWf(items)
    ensures Parse(Text(TStr(UpperItems(items)), []), stod) == Parse(Text(TStr(items), []), stod) ==
            Success(Str(ItemsValue(items)))
    ensures PyStr(UpperItems(items)) == PyStr(items)
  {
    UpperValue(items);
    PlainText(TStr(items), Finite(stod));
    PlainText(TStr(UpperItems(items)), Finite(stod));
    hide Text, PText, ItemsValue, UpperItems, Join, Decode;
  }

  // ---- two-byte escapes ----

  lemma OneItem(item: Item, stod: Stod)
    requires item.Wf()
    ensures Parse([QUOTE] + (item.Text() + [QUOTE]), stod) == Success(Str(ItemValue(item)))
  {
    var t := TStr([item]);
    assert [item][1..] == [] && ItemsText([], []) == [QUOTE] + [] == [QUOTE];
    assert Text(t, []) == [QUOTE] + (item.Text() + [QUOTE]);
    assert ItemsValue([item]) == ItemValue(item) + [] == ItemValue(item);
    PlainText(t, Finite(stod));
    hide Text, PText;
  }

  const ESCAPES: Bytes := L("\"\\/bfnrt")
  const ESCAPED: Bytes := [0x22, 0x5C, 0x2F, 0x08, 0x0C, 0x0A, 0x0D, 0x09]

  /** The eight two-byte escapes and what they stand for; but for `\u` there is no other. */
  lemma EscapeTable(c: byte, stod: Stod)
    requires c != 0x75
    ensures |ESCAPES| == |ESCAPED| == 8
    ensures forall i | 0 <= i < 8 :: ESCAPES[i] == c ==>
            Parse([0x22, 0x5C, c, 0x22], stod) == Success(Str([ESCAPED[i]]))
    ensures c !in ESCAPES ==> Parse([0x22, 0x5C, c, 0x22], stod) == Failure(InvalidEscape)
  {
    var text: Bytes := [0x22, 0x5C, c, 0x22];
    if EscapeOf(c).Some? {
      OneItem(Esc(c), stod);
      assert [QUOTE] + (Esc(c).Text() + [QUOTE]) == text;
      hide Parse;
      EscapeListed(c);
    } else {
      assert c !in ESCAPES ==> PTree(text, Finite(stod)) == Err(InvalidEscape) by {
        assert text[1..][1] == c && text[1..][0] == 0x5C;
      }
      EscapeListed(c);
      assert SkipWs(text) == text;
    }
  }

  lemma EscapeListed(c: byte)
    ensures |ESCAPES| == 8 && (c in ESCAPES <==> EscapeOf(c).Some?)
    ensures forall i | 0 <= i < 8 :: ESCAPES[i] == c ==> EscapeOf(c) == Some(ESCAPED[i])
  {
    if c == 0x22 { assert ESCAPES[0] == c; }
    if c == 0x5C { assert ESCAPES[1] == c; }
    if c == 0x2F { assert ESCAPES[2] == c; }
    if c == 0x62 { assert ESCAPES[3] == c; }
    if c == 0x66 { assert ESCAPES[4] == c; }
    if c == 0x6E { assert ESCAPES[5] == c; }
    if c == 0x72 { assert ESCAPES[6] == c; }
    if c == 0x74 { assert ESCAPES[7] == c; }
  }

  // ---- words and blanks ----

  /** The three words. */
  lemma Words(stod: Stod)
    ensures Parse(L("null"), stod) == Success(Null)
    ensures Parse(L("true"), stod) == Success(Bool(true)) && Parse(L("false"), stod) == Success(Bool(false))
  {
    assert L("null") == NULL_TEXT + [] && L("true") == TRUE_TEXT + [] && L("false") == FALSE_TEXT + [];
    PlainText(TNull, Finite(stod));
    PlainText(TBool(true), Finite(stod));
    PlainText(TBool(false), Finite(stod));
  }

  /** Four bytes may stand before and after a text, and no others. */
  lemma BlankTable(b: byte, stod: Stod)
    ensures Parse([b] + L("null"), stod) == Success(Null) <==> b == 0x20 || b == 0x09 || b == 0x0A || b == 0x0D
    ensures Parse(L("null") + [b], stod) == Success(Null) <==> b == 0x20 || b == 0x09 || b == 0x0A || b == 0x0D
  {
    assert L("null") == NULL_TEXT;
    hide L, Parse;
    BlankFirst(b, stod);
    BlankLast(b, stod);
  }

  lemma BlankLast(b: byte, stod: Stod)
    ensures Parse(NULL_TEXT + [b], stod) == Success(Null) <==> IsWs(b)
  {
    hide PTree;
    TreeComplete(TNull, [b], Finite(stod));
    assert Text(TNull, [b]) == NULL_TEXT + [b] && SkipWs(NULL_TEXT + [b]) == NULL_TEXT + [b];
    assert [b][1..] == [];
  }

  lemma BlankFirst(b: byte, stod: Stod)
    ensures Parse([b] + NULL_TEXT, stod) == Success(Null) <==> IsWs(b)
  {
    var t, ok := [b] + NULL_TEXT, Finite(stod);
    hide PTree, Value;
    assert t[1..] == NULL_TEXT && SkipWs(NULL_TEXT) == NULL_TEXT;
    if IsWs(b) {
      TreeComplete(TNull, [], ok);
      assert Text(TNull, []) == NULL_TEXT && SkipWs(t) == NULL_TEXT;
      NullOnly(TNull, stod);
    } else {
      assert SkipWs(t) == t;
      if PTree(t, ok).Ok? {
        var v, rest := PTree(t, ok).v, PTree(t, ok).rest;
        TreeSound(t, ok);
        NullOnly(v, stod);
        if v == TNull { NotNull(t, rest); }
      }
    }
  }

  lemma NullOnly(t: Tree, stod: Stod)
    requires Wf(t, Finite(stod))
    ensures Value(t, stod) == Null <==> t == TNull
  {
    hide IsFractional, IntVal;
  }

  lemma NotNull(t: Bytes, rest: Bytes)
    ensures |t| > 1 && t[1] == 0x6E ==> t != Text(TNull, rest)
  {
    assert Text(TNull, rest)[1] == NULL_TEXT[1] == 0x75;
  }

  // ---- strings as they are written ----

  /** What C++ writes for one byte. */
  lemma CppSpelling(b: byte, show: Show)
    ensures Dump(Str([b]), show) == [QUOTE] + (ItemOf(b).Text() + [QUOTE])
    ensures |ESCAPES| == 8
    ensures forall i | 0 <= i < 8 && i != 2 && ESCAPED[i] == b :: ItemOf(b).Text() == [0x5C, ESCAPES[i]]
    ensures |LOWER_HEX| == 16
    ensures b < 0x20 && b !in ESCAPED ==>
              ItemOf(b).Text() == L("\\u00") + [LOWER_HEX[b / 16], LOWER_HEX[b % 16]]
    ensures b >= 0x20 && b != 0x22 && b != 0x5C ==> ItemOf(b).Text() == [b]
  {
    assert [b][1..] == [] && ItemsOf([b]) == [ItemOf(b)] && [ItemOf(b)][1..] == [];
    assert ItemsText([], []) == [QUOTE] + [] == [QUOTE];
    EscapeListed(b);
    if b < 0x20 && b !in ESCAPED {
      HexTable(b);
      DigitTable(b / 16);
      DigitTable(b % 16);
      assert b != ESCAPED[3] && b != ESCAPED[4] && b != ESCAPED[5] && b != ESCAPED[6] && b != ESCAPED[7];
      assert L("\\u00") == [0x5C, 0x75, 0x30, 0x30];
    }
  }

  lemma DigitTable(n: int)
    requires 0 <= n < 16
    ensures |LOWER_HEX| == 16 && HexDigit(n) == LOWER_HEX[n]
  {
  }

  /** What Python writes for one 16-bit unit: itself from the space to the tilde, and otherwise an
      escape, with its digits in lower case. */
  lemma PySpelling(u: Code)
    requires u < 0x10000
    ensures Dumps(PStr([u])) == [QUOTE] + (PyItem(u).Text() + [QUOTE])
    ensures |ESCAPES| == 8
    ensures forall i | 0 <= i < 8 && i != 2 && ESCAPED[i] == u :: PyItem(u).Text() == [0x5C, ESCAPES[i]]
    ensures 0x20 <= u <= 0x7E && u != 0x22 && u != 0x5C ==> PyItem(u).Text() == [u]
    ensures |LOWER_HEX| == 16
    ensures (u < 0x20 && u !in ESCAPED) || u > 0x7E ==>
              PyItem(u).Text() == L("\\u") + [LOWER_HEX[u / 4096], LOWER_HEX[u / 256 % 16], LOWER_HEX[u / 16 % 16],
                                              LOWER_HEX[u % 16]]
  {
    assert [u][1..] == [] && PyItems([u]) == [PyItem(u)] + [] == [PyItem(u)] && [PyItem(u)][1..] == [];
    assert ItemsText([], []) == [QUOTE] + [] == [QUOTE];
    if u < 256 { EscapeListed(u); }
    if (u < 0x20 && u !in ESCAPED) || u > 0x7E {
      if u < 0x20 {
        assert u != ESCAPED[3] && u != ESCAPED[4] && u != ESCAPED[5] && u != ESCAPED[6] && u != ESCAPED[7];
      }
      DigitTable(u / 4096);
      DigitTable(u / 256 % 16);
      DigitTable(u / 16 % 16);
      DigitTable(u % 16);
      assert L("\\u") == [0x5C, 0x75];
    }
  }

  // ---- characters beyond U+FFFF ----

  /** Two units are one character iff they are a high and a low surrogate, and which one. */
  lemma PairTable(h: Code, l: Code)
    ensures Join([h, l]) ==
            if 0xD800 <= h <= 0xDBFF && 0xDC00 <= l <= 0xDFFF then [0x10000 + (h - 0xD800) * 1024 + (l - 0xDC00)]
            else [h, l]
  {
    assert [h, l][2..] == [] && [h, l][1..] == [l] && [l][1..] == [];
    assert Join([l]) == [l] + Join([]) == [l];
  }

  /** The four-byte form: six bits of the character in each byte after the first. */
  lemma FourBytes(c: Code)
    requires c >= 0x10000
    ensures |EncodeOne(c)| == 4 && forall i | 1 <= i < 4 :: 0x80 <= EncodeOne(c)[i] <= 0xBF
    ensures var a: int, b: int, d: int, e: int := EncodeOne(c)[0], EncodeOne(c)[1], EncodeOne(c)[2], EncodeOne(c)[3];
      0xF0 <= a <= 0xF4 && c == (a - 0xF0) * 262144 + (b - 0x80) * 4096 + (d - 0x80) * 64 + (e - 0x80)
  {
    Split4(c);
  }

  // ---- numbers ----

  lemma DigitsNotIn(ds: Bytes)
    requires Digits(ds)
    ensures DOT !in ds && LOWER_E !in ds && UPPER_E !in ds
  {
  }

  lemma FractionalIff(n: Num)
    requires n.Wf()
    ensures IsFractional(n.Text([])) <==> n.frac.Some? || n.exp.Some?
  {
    var sign: Bytes := if n.neg then [MINUS] else [];
    var e := n.ExpText([]);
    var f := n.FracText(e);
    DigitsNotIn(n.whole);
    assert n.Text([]) == sign + (n.whole + f);
    if n.exp.Some? { assert e[0] == n.exp.value.e && e[0] in e; }
    if n.frac.Some? {
      assert f[0] == DOT && f[0] in f;
    } else {
      assert f == e;
    }
    assert forall b <- f :: b in n.Text([]);
    if n.frac.None? && n.exp.None? { assert f == []; }
  }

  /** A number with a fraction or an exponent is a float to Python, and any other an integer. */
  lemma NumberKinds(n: Num)
    requires n.Wf()
    ensures Loads(n.Text([])) ==
            Some(if n.frac.Some? || n.exp.Some? then PFloat(n.Text([])) else PInt(IntVal(n.Text([]))))
  {
    var tok := n.Text([]);
    assert NumTok(tok) && tok + [] == tok;
    FractionalIff(n);
    hide IsFractional, IntVal;
    LoadsText(TNum(tok));
  }

  /** To C++ it is a double, and any other an integer as long as it fits 64 bits, if `stod` reads
      what does not. */
  lemma CppNumberKinds(n: Num, stod: Stod)
    requires n.Wf()
    ensures var tok, v := n.Text([]), IntVal(n.Text([]));
      Parse(tok, stod) ==
        if n.frac.None? && n.exp.None? && -0x8000_0000_0000_0000 <= v < 0x8000_0000_0000_0000 then Success(Int(v))
        else match stod(tok) case Some(d) => Success(Double(d)) case None => Failure(InvalidNumber)
  {
    var tok, ok := n.Text([]), Finite(stod);
    assert NumTok(tok) && tok + [] == tok;
    FractionalIff(n);
    hide IsFractional, IntVal;
    if Readable(tok, ok) {
      hide PText;
      PlainText(TNum(tok), ok);
    } else {
      NumTokStart(tok);
      SkipNumberComplete(n, []);
      hide SkipNumber;
      NumberRefused(tok, ok);
    }
  }

  lemma NumberRefused(tok: Bytes, ok: Bytes -> bool)
    requires tok != [] && (tok[0] == MINUS || IsDigit(tok[0])) && SkipNumber(tok) == Some([]) && !Readable(tok, ok)
    ensures PText(tok, ok) == Err(InvalidNumber)
  {
    hide SkipNumber, Readable, PItems, PElems, PMembers;
    assert PNumber(tok, ok) == Err(InvalidNumber) by { assert tok[..|tok|] == tok; }
    assert PTree(tok, ok) == Err(InvalidNumber);
    hide PTree;
    assert SkipWs(tok) == tok;
  }

  predicate AllDigits(s: Bytes) { s != [] && forall i | 0 <= i < |s| :: 0x30 <= s[i] <= 0x39 }

  /** A number: a minus sign or none, digits without a needless zero, a point and digits or none,
      and `e` or `E`, a sign or none, and digits, or none. */
  predicate Spelled(n: Num, tok: Bytes) {
    && AllDigits(n.whole) && (n.whole[0] == 0x30 ==> |n.whole| == 1)
    && (n.frac.Some? ==> AllDigits(n.frac.value))
    && (n.exp.Some? ==> && (n.exp.value.e == 0x65 || n.exp.value.e == 0x45)
                        && (n.exp.value.sign == [] || n.exp.value.sign == [0x2B] || n.exp.value.sign == [0x2D])
                        && AllDigits(n.exp.value.digits))
    && tok == (if n.neg then [0x2D] else []) +
              (n.whole +
               ((if n.frac.Some? then [0x2E] + n.frac.value else []) +
                (if n.exp.Some? then [n.exp.value.e] + (n.exp.value.sign + n.exp.value.digits) else [])))
  }

  lemma SpelledText(n: Num)
    ensures n.ExpText([]) == if n.exp.Some? then [n.exp.value.e] + (n.exp.value.sign + n.exp.value.digits) else []
    ensures forall k :: n.FracText(k) == (if n.frac.Some? then [0x2E] + n.frac.value else []) + k
  {
    if n.exp.Some? { assert n.exp.value.digits + [] == n.exp.value.digits; }
    forall k ensures n.FracText(k) == (if n.frac.Some? then [0x2E] + n.frac.value else []) + k {
      if n.frac.Some? { Assoc([DOT], n.frac.value, k); } else { assert [] + k == k; }
    }
  }

  lemma SpelledIff(n: Num, tok: Bytes)
    ensures Spelled(n, tok) <==> n.Wf() && tok == n.Text([])
  {
    SpelledText(n);
    hide Num.ExpText, Num.FracText;
  }

  /** A byte string is read as a number, and read to its end, iff it is spelled like one. */
  lemma NumberForms(tok: Bytes)
    ensures PTree(tok, AnyNumber()) == Ok(TNum(tok), []) <==> exists n: Num :: Spelled(n, tok)
  {
    hide Num.Text, Num.Wf, Spelled, SkipNumber;
    if PTree(tok, AnyNumber()) == Ok(TNum(tok), []) {
      TreeSound(tok, AnyNumber());
      assert NumTok(tok);
      var n: Num :| n.Wf() && tok == n.Text([]);
      SpelledIff(n, tok);
    }
    if n: Num :| Spelled(n, tok) {
      SpelledIff(n, tok);
      assert NumTok(tok) && tok + [] == tok && Readable(tok, AnyNumber());
      TreeComplete(TNum(tok), [], AnyNumber());
    }
  }

  /** The base is ten. */
  lemma Decimal()
    ensures IntVal(L("-0")) == 0 && IntVal(L("120")) == 120 && IntVal(L("-120")) == -120
    ensures ShowInt(120) == L("120") && ShowInt(-120) == L("-120")
  {
    var s: Bytes := [0x31, 0x32, 0x30];
    assert s[..2] == [0x31, 0x32] && s[..2][..1] == [0x31] && [0x31][..0] == [];
    assert DigitsVal([0x31]) == 1 && DigitsVal([0x31, 0x32]) == 12 && DigitsVal(s) == 120;
    assert L("120") == s && L("-120") == [MINUS] + s && L("-120")[1..] == s;
    assert L("-0") == [MINUS, ZERO] && L("-0")[1..] == [ZERO] && [ZERO][..0] == [];
    assert ShowNat(1) == [0x31] && ShowNat(12) == [0x31, 0x32] && ShowNat(120) == s;
  }
}
