/** Python strings against the same string items: `json.dumps` escapes everything outside
    printable ASCII, `json.loads` joins the two halves of an escaped surrogate pair. */
module PyText {
  import opened Bytes
  import opened Grammar
  import opened DescentProofs
  import opened CppJson
  import opened Utf8

  // ---- surrogate pairs ----

  predicate PairAt(cs: Str, i: nat)
    requires i + 1 < |cs|
  {
    IsHigh(cs[i]) && IsLow(cs[i + 1])
  }

  /** No high surrogate directly before a low one. */
  predicate NoPairs(cs: Str) { forall i: nat | i + 1 < |cs| :: !PairAt(cs, i) }

  function Combine(h: Code, l: Code): Code
    requires IsHigh(h) && IsLow(l)
  {
    var high: int := h;
    0x10000 + (high - 0xD800) * 0x400 + (l - 0xDC00)
  }

  /** `json.loads`: each adjacent pair of surrogates becomes one code point. */
  function Join(us: Str): Str {
    if us == [] then []
    else if |us| > 1 && PairAt(us, 0) then [Combine(us[0], us[1])] + Join(us[2..])
    else [us[0]] + Join(us[1..])
  }

  function UnitsOf(c: Code): Str {
    if c < 0x10000 then [c] else [0xD800 + (c - 0x10000) / 0x400, 0xDC00 + (c - 0x10000) % 0x400]
  }

  /** `json.dumps`: the 16-bit units written as `\u` escapes. */
  function Units(cs: Str): Str {
    if cs == [] then [] else UnitsOf(cs[0]) + Units(cs[1..])
  }

  lemma JoinCons(c: Code, us: Str)
    requires c >= 0x10000 || us == [] || !IsHigh(c) || !IsLow(us[0])
    ensures Join(UnitsOf(c) + us) == [c] + Join(us)
  {
    var s := UnitsOf(c) + us;
    if c < 0x10000 {
      assert s[1..] == us;
    } else {
      assert s[2..] == us;
      assert Combine(s[0], s[1]) == c;
    }
  }

  /** Writing units and joining them again gives the string back iff it has no split pair. */
  lemma JoinUnits(cs: Str)
    ensures Join(Units(cs)) == cs <==> NoPairs(cs)
  {
    if NoPairs(cs) { JoinUnitsBack(cs); }
    JoinNoPairs(Units(cs));
  }

  lemma {:induction false} JoinUnitsBack(cs: Str)
    requires NoPairs(cs)
    ensures Join(Units(cs)) == cs
  {
    if cs != [] {
      assert NoPairs(cs[1..]) by {
        forall i: nat | i + 1 < |cs[1..]| ensures !PairAt(cs[1..], i) { assert !PairAt(cs, i + 1); }
      }
      JoinUnitsBack(cs[1..]);
      var us := Units(cs[1..]);
      if |cs| > 1 {
        assert !PairAt(cs, 0);
        assert us[0] == UnitsOf(cs[1])[0];
      }
      JoinCons(cs[0], us);
      HeadTail(cs);
    }
  }

  /** What `loads` returns never holds a split pair. */
  lemma {:induction false} JoinNoPairs(us: Str)
    ensures NoPairs(Join(us))
  {
    if us != [] {
      var n := if |us| > 1 && PairAt(us, 0) then 2 else 1;
      var head := Join(us)[0];
      var rest := Join(us[n..]);
      JoinNoPairs(us[n..]);
      assert Join(us) == [head] + rest;
      if rest != [] { JoinHead(us[n..]); }
      forall i: nat | i + 1 < |Join(us)| ensures !PairAt(Join(us), i) {
        if i > 0 { assert !PairAt(rest, i - 1); }
      }
    }
  }

  lemma JoinHead(us: Str)
    requires us != []
    ensures Join(us) != [] && (Join(us)[0] == us[0] || Join(us)[0] >= 0x10000)
  {
  }

  /** With no pair to join, joining changes nothing. */
  lemma {:induction false} JoinId(us: Str)
    requires NoPairs(us)
    ensures Join(us) == us
  {
    if us != [] {
      if |us| > 1 { assert !PairAt(us, 0); }
      assert NoPairs(us[1..]) by {
        forall i: nat | i + 1 < |us[1..]| ensures !PairAt(us[1..], i) { assert !PairAt(us, i + 1); }
      }
      JoinId(us[1..]);
      HeadTail(us);
    }
  }

  /** A joined string below U+10000 had nothing to join. */
  lemma {:induction false} JoinSmall(us: Str)
    requires forall i | 0 <= i < |Join(us)| :: Join(us)[i] < 0x10000
    ensures Join(us) == us
  {
    if us != [] {
      assert Join(us)[0] < 0x10000;
      var rest := Join(us[1..]);
      assert Join(us) == [us[0]] + rest;
      assert forall i | 0 <= i < |rest| :: rest[i] == Join(us)[i + 1];
      JoinSmall(us[1..]);
      HeadTail(us);
    }
  }

  // ---- reading ----

  /** The Python string a string's items denote.  `Decode` never fails on the strings of a
      datagram that is UTF-8: see `PyJson.StringsDecode`. */
  function PyStr(items: seq<Item>): Str {
    match Decode(ItemsValue(items), false)
    case Some(us) => Join(us)
    case None => []
  }

  // ---- writing ----

  function Hex4Text(n: int): (h: Bytes)
    requires 0 <= n < 0x10000
    ensures |h| == 4
  {
    [HexDigit(n / 0x1000), HexDigit(n / 0x100 % 16), HexDigit(n / 16 % 16), HexDigit(n % 16)]
  }

  lemma HexDigitVal(n: int)
    requires 0 <= n < 16
    ensures IsHex(HexDigit(n)) && HexVal(HexDigit(n)) == n && HexDigit(n) < 0x80
  {
  }

  lemma Hex4Back(n: int)
    requires 0 <= n < 0x10000
    ensures IsHex4(Hex4Text(n)) && Hex4(Hex4Text(n)) == n && Ascii(Hex4Text(n))
  {
    HexDigitVal(n / 0x1000);
    HexDigitVal(n / 0x100 % 16);
    HexDigitVal(n / 16 % 16);
    HexDigitVal(n % 16);
    assert n / 0x1000 == n / 0x100 / 16 && n / 0x100 == n / 16 / 16;
  }

  /** The item `json.dumps` writes for one 16-bit unit. */
  function PyItem(u: Code): Item
    requires u < 0x10000
  {
    if u == QUOTE then Esc(QUOTE)
    else if u == BACKSLASH then Esc(BACKSLASH)
    else if u == 0x0A then Esc(0x6E)
    else if u == 0x0D then Esc(0x72)
    else if u == 0x09 then Esc(0x74)
    else if u == 0x0C then Esc(0x66)
    else if u == 0x08 then Esc(0x62)
    else if 0x20 <= u <= 0x7E then Raw(u)
    else Uni(Hex4Text(u))
  }

  function PyItems(cs: Str): seq<Item> {
    if cs == [] then []
    else if cs[0] < 0x10000 then [PyItem(cs[0])] + PyItems(cs[1..])
    else var us := UnitsOf(cs[0]); [PyItem(us[0]), PyItem(us[1])] + PyItems(cs[1..])
  }

  lemma PyItemBack(u: Code)
    requires u < 0x10000
    ensures var item := PyItem(u);
            item.Wf() && ItemValue(item) == EncodeOne(u) && Ascii(item.Text()) && 1 <= |item.Text()| <= 6
            && (item.Raw? ==> item.b >= 0x20)
  {
    if PyItem(u).Uni? { Hex4Back(u); }
  }

  predicate NoControls(items: seq<Item>) {
    forall i | 0 <= i < |items| :: items[i].Raw? ==> items[i].b >= 0x20
  }

  lemma {:induction false} PyItemsBack(cs: Str)
    ensures var items := PyItems(cs);
            ItemsWf(items) && ItemsValue(items) == Encode(Units(cs)) && NoControls(items)
  {
    hide PyItem, EncodeOne;
    if cs != [] {
      var us := UnitsOf(cs[0]);
      PyItemsBack(cs[1..]);
      PyItemBack(us[0]);
      if cs[0] < 0x10000 {
        TailOfCons(PyItem(cs[0]), PyItems(cs[1..]));
        TailOfCons(cs[0], Units(cs[1..]));
      } else {
        PyItemBack(us[1]);
        TwoItems(PyItem(us[0]), PyItem(us[1]), PyItems(cs[1..]));
        assert (us + Units(cs[1..]))[1..] == [us[1]] + Units(cs[1..]);
        TailOfCons(us[1], Units(cs[1..]));
        Assoc(EncodeOne(us[0]), EncodeOne(us[1]), Encode(Units(cs[1..])));
      }
    }
  }

  lemma TwoItems(a: Item, b: Item, items: seq<Item>)
    ensures ItemsValue([a, b] + items) == ItemValue(a) + (ItemValue(b) + ItemsValue(items))
  {
    assert ([a, b] + items)[1..] == [b] + items;
    TailOfCons(b, items);
  }

  /** A string survives `dumps` and `loads` iff it has no split surrogate pair. */
  lemma PyStrBack(cs: Str)
    ensures PyStr(PyItems(cs)) == cs <==> NoPairs(cs)
  {
    PyItemsBack(cs);
    DecodeEncode(Units(cs));
    JoinUnits(cs);
  }

  // ---- the bytes of a string, without its quotes ----

  function Body(items: seq<Item>): Bytes {
    if items == [] then [] else items[0].Text() + Body(items[1..])
  }

  lemma {:induction false} BodyText(items: seq<Item>, k: Bytes)
    ensures ItemsText(items, k) == Body(items) + ([QUOTE] + k)
  {
    if items != [] {
      BodyText(items[1..], k);
      Assoc(items[0].Text(), Body(items[1..]), [QUOTE] + k);
    }
  }

  lemma AsciiThen(a: Bytes, k: Bytes)
    requires Ascii(a)
    ensures IsUtf8(a + k) <==> IsUtf8(k)
  {
    AsciiEncode(a);
    DecodePrefix(a, k, true);
  }

  /** Strict decoding can be cut before any ASCII byte. */
  lemma CutAtAscii(a: Bytes, b: Bytes)
    requires b != [] && b[0] < 0x80
    ensures IsUtf8(a + b) <==> IsUtf8(a) && IsUtf8(b)
  {
    if IsUtf8(a) && IsUtf8(b) {
      DecodeConcat(a, b, true);
    } else if IsUtf8(a + b) {
      CutBack(a, b);
    }
  }

  lemma {:induction false} CutBack(a: Bytes, b: Bytes)
    requires b != [] && b[0] < 0x80 && IsUtf8(a + b)
    ensures IsUtf8(a) && IsUtf8(b)
  {
    if a == [] {
      assert a + b == b;
    } else {
      var (c, n) := DecodeOne(a + b, true).value;
      CutOne(a, b);
      assert (a + b)[n..] == a[n..] + b;
      CutBack(a[n..], b);
    }
  }

  lemma CutOne(a: Bytes, b: Bytes)
    requires a != [] && b != [] && b[0] < 0x80 && DecodeOne(a + b, true).Some?
    ensures DecodeOne(a + b, true).value.1 <= |a|
    ensures DecodeOne(a, true) == DecodeOne(a + b, true)
  {
    var s := a + b;
    assert s[|a|] == b[0];
  }

  /** A string whose bytes are UTF-8 decodes, escapes and all. */
  lemma {:induction false} BodyDecodes(items: seq<Item>)
    requires ItemsWf(items) && IsUtf8(Body(items))
    ensures Decode(ItemsValue(items), false).Some?
    decreases |items|
  {
    if items != [] {
      var item := items[0];
      if item.Raw? && item.b >= 0x80 {
        var n := HighCharacter(items);
        BodyDecodes(items[n..]);
        LooseOne(Body(items)[..n], Body(items)[n..], ItemsValue(items[n..]));
      } else {
        ItemAscii(item);
        AsciiThen(item.Text(), Body(items[1..]));
        BodyDecodes(items[1..]);
        DecodeConcat(ItemValue(item), ItemsValue(items[1..]), false);
      }
    }
  }

  /** A multi-byte character at the front is a run of raw items. */
  lemma HighCharacter(items: seq<Item>) returns (n: nat)
    requires items != [] && items[0].Raw? && items[0].b >= 0x80 && IsUtf8(Body(items))
    ensures 1 <= n <= |items| && n <= |Body(items)|
    ensures DecodeOne(Body(items)[..n] + Body(items)[n..], true).Some?
    ensures DecodeOne(Body(items)[..n] + Body(items)[n..], true).value.1 == n
    ensures Body(items)[n..] == Body(items[n..]) && IsUtf8(Body(items[n..]))
    ensures ItemsValue(items) == Body(items)[..n] + ItemsValue(items[n..])
  {
    var s := Body(items);
    assert s[0] == items[0].b && s != [];
    RestUtf8(s);
    HighPrefix(s);
    hide DecodeOne, Decode, IsUtf8, Body, ItemsValue;
    n := DecodeOne(s, true).value.1;
    RawRun(items, n);
    TakeDrop(s, n);
  }

  lemma RestUtf8(s: Bytes)
    requires s != [] && IsUtf8(s)
    ensures DecodeOne(s, true).Some? && IsUtf8(s[DecodeOne(s, true).value.1..])
  {
  }

  lemma TakeDrop<T>(s: seq<T>, n: nat)
    requires n <= |s|
    ensures s[..n] + s[n..] == s
  {
  }

  lemma ItemAscii(item: Item)
    requires item.Wf() && !(item.Raw? && item.b >= 0x80)
    ensures Ascii(item.Text()) && Decode(ItemValue(item), false).Some?
  {
    match item
    case Raw(b) => AsciiDecode([b], false);
    case Esc(c) => AsciiDecode([EscapeOf(c).value], false);
    case Uni(h) =>
      var u := Hex4(h);
      assert Encode([u]) == EncodeOne(u) + [] by { assert [u][1..] == []; }
      assert EncodeOne(u) + [] == EncodeOne(u);
      hide Decode, EncodeOne;
      DecodeEncode([u]);
  }

  /** All the bytes of a multi-byte character are 0x80 or above. */
  lemma HighPrefix(s: Bytes)
    requires s != [] && s[0] >= 0x80 && DecodeOne(s, true).Some?
    ensures forall i | 0 <= i < DecodeOne(s, true).value.1 :: s[i] >= 0x80
  {
  }

  lemma LooseOne(a: Bytes, k: Bytes, k': Bytes)
    requires a != [] && DecodeOne(a + k, true).Some? && DecodeOne(a + k, true).value.1 == |a|
    requires Decode(k', false).Some?
    ensures Decode(a + k', false).Some?
  {
    assert forall i | 0 <= i < |a| :: (a + k)[i] == a[i] == (a + k')[i];
    assert (a + k')[|a|..] == k';
  }

  /** Bytes from 0x80 up can only be raw items. */
  lemma {:induction false} RawRun(items: seq<Item>, n: nat)
    requires n <= |Body(items)| && forall i | 0 <= i < n :: Body(items)[i] >= 0x80
    ensures n <= |items| && Body(items)[n..] == Body(items[n..])
    ensures ItemsValue(items) == Body(items)[..n] + ItemsValue(items[n..])
  {
    if n > 0 {
      var b := Body(items[1..]);
      assert Body(items)[0] == items[0].Text()[0];
      assert items[0].Raw? && Body(items) == [items[0].b] + b;
      assert forall i | 0 <= i < n - 1 :: b[i] == Body(items)[i + 1];
      RawRun(items[1..], n - 1);
      assert items[1..][n - 1..] == items[n..];
      ConsSlice(items[0].b, b, n, ItemsValue(items[n..]));
    }
  }

  lemma ConsSlice(x: byte, b: Bytes, n: nat, k: Bytes)
    requires 0 < n <= |b| + 1
    ensures ([x] + b)[n..] == b[n - 1..]
    ensures [x] + (b[..n - 1] + k) == ([x] + b)[..n] + k
  {
  }

  // ---- strings C++ wrote ----

  /** Escaping keeps UTF-8: `write_string` of UTF-8 text is UTF-8 text. */
  lemma {:induction false} EscapedUtf8(cs: Str)
    requires NoSurrogates(cs)
    ensures IsUtf8(Body(ItemsOf(Encode(cs)))) && NoControls(ItemsOf(Encode(cs)))
  {
    if cs != [] {
      var c, rest := cs[0], Encode(cs[1..]);
      EscapedUtf8(cs[1..]);
      if c < 0x80 {
        TailOfCons(c, rest);
        AsciiItemOf(c);
        AsciiThen(ItemOf(c).Text(), Body(ItemsOf(rest)));
        TailOfCons(ItemOf(c), ItemsOf(rest));
      } else {
        RawBytes(EncodeOne(c), rest);
        assert Encode([c]) == EncodeOne(c) by { assert [c][1..] == []; assert EncodeOne(c) + [] == EncodeOne(c); }
        Utf8IffNoSurrogates([c]);
        DecodeConcat(EncodeOne(c), Body(ItemsOf(rest)), true);
      }
    }
  }

  lemma AsciiItemOf(b: byte)
    requires b < 0x80
    ensures Ascii(ItemOf(b).Text()) && (ItemOf(b).Raw? ==> ItemOf(b).b >= 0x20)
  {
  }

  lemma {:induction false} RawBytes(a: Bytes, k: Bytes)
    requires forall i | 0 <= i < |a| :: a[i] >= 0x80
    ensures Body(ItemsOf(a + k)) == a + Body(ItemsOf(k))
    ensures NoControls(ItemsOf(k)) ==> NoControls(ItemsOf(a + k))
  {
    if a == [] {
      assert a + k == k;
    } else {
      assert ItemOf(a[0]) == Raw(a[0]);
      hide ItemOf;
      assert (a + k)[1..] == a[1..] + k;
      RawBytes(a[1..], k);
      TailOfCons(ItemOf(a[0]), ItemsOf(a[1..] + k));
      HeadTail(a);
      Assoc([a[0]], a[1..], Body(ItemsOf(k)));
    }
  }
}
