/** `parse(dump(v))`, the size of what `dump` writes, and what `\u` escapes become. */
module RoundTrip {
  import opened Bytes
  import opened Grammar
  import opened Descent
  import opened DescentProofs
  import opened CppJson
  import opened Recursion
  import Utf8

  // ---- integers ----

  lemma {:induction false} ShowNatDigits(n: nat)
    ensures Digits(ShowNat(n)) && DigitsVal(ShowNat(n)) == n
    ensures n > 0 ==> ShowNat(n)[0] != ZERO
    ensures n == 0 ==> ShowNat(n) == [ZERO]
  {
    var s := ShowNat(n);
    if n < 10 {
      assert s[..0] == [];
      assert DigitsVal(s[..0]) == 0;
    } else {
      ShowNatDigits(n / 10);
      assert s[..|s| - 1] == ShowNat(n / 10);
    }
  }

  /** `operator<<(int64_t)` writes a number token that reads back as the same integer. */
  lemma ShowIntToken(i: int)
    ensures NumTok(ShowInt(i)) && IntVal(ShowInt(i)) == i && !IsFractional(ShowInt(i))
  {
    var n := if i < 0 then -i else i;
    var ds := ShowNat(n);
    ShowNatDigits(n);
    WholeToken(i < 0, ds);
    if i < 0 { TailOfCons(MINUS, ds); }
  }

  lemma WholeToken(neg: bool, ds: Bytes)
    requires Digits(ds) && (ds[0] == ZERO ==> |ds| == 1)
    ensures NumTok((if neg then [MINUS] else []) + ds) && !IsFractional((if neg then [MINUS] else []) + ds)
    ensures [] + ds == ds
  {
    var num := Num(neg, ds, None, None);
    assert ds + [] == ds;
    assert num.Wf() && num.Text([]) == (if neg then [MINUS] else []) + ds;
  }

  // ---- strings ----

  lemma ItemOfByte(b: byte)
    ensures ItemOf(b).Wf() && ItemValue(ItemOf(b)) == [b] && 1 <= |ItemOf(b).Text()| <= 6
  {
    if ItemOf(b).Uni? {
      var h := ItemOf(b).h;
      assert HexVal(h[2]) == b / 16 && HexVal(h[3]) == b % 16;
      assert Hex4(h) == b;
    }
  }

  lemma {:induction false} ItemsOfString(s: Bytes)
    ensures ItemsWf(ItemsOf(s)) && ItemsValue(ItemsOf(s)) == s
  {
    if s != [] {
      ItemOfByte(s[0]);
      ItemsOfString(s[1..]);
      TailOfCons(ItemOf(s[0]), ItemsOf(s[1..]));
      HeadTail(s);
    }
  }

  /** A string of n bytes takes between n + 2 and 6n + 2 bytes, quotes included. */
  lemma QuotedSize(s: Bytes)
    ensures |s| + 2 <= |Dump(Str(s), _ => [])| <= 6 * |s| + 2
  {
    EscapedSize(s);
  }

  lemma {:induction false} EscapedSize(s: Bytes)
    ensures |s| + 1 <= |ItemsText(ItemsOf(s), [])| <= 6 * |s| + 1
  {
    if s != [] {
      ItemOfByte(s[0]);
      EscapedSize(s[1..]);
      TailOfCons(ItemOf(s[0]), ItemsOf(s[1..]));
    }
  }

  // ---- the round trip ----

  function Doubles(v: Json): set<bits64> {
    match v
    case Double(d) => {d}
    case Arr(a) => DoublesIn(a)
    case Obj(o) => DoublesOf(o)
    case _ => {}
  }

  function DoublesIn(a: seq<Json>): set<bits64> {
    if a == [] then {} else Doubles(a[0]) + DoublesIn(a[1..])
  }

  function DoublesOf(o: seq<Field>): set<bits64> {
    if o == [] then {} else Doubles(o[0].val) + DoublesOf(o[1..])
  }

  /** `d` is printed as a number token, and one that can be read. */
  ghost predicate Printable(d: bits64, show: Show, ok: Bytes -> bool) {
    NumTok(show(d)) && Readable(show(d), ok)
  }

  /** The text of `d` reads back as `d`. */
  ghost predicate Faithful(d: bits64, show: Show, stod: Stod) {
    NumValue(show(d), stod) == Double(d)
  }

  lemma {:induction false} TreeOfWf(v: Json, show: Show, ok: Bytes -> bool)
    requires forall d <- Doubles(v) :: Printable(d, show, ok)
    ensures Wf(TreeOf(v, show), ok)
    decreases v, 0
  {
    match v
    case Int(i) => ShowIntToken(i);
    case Str(s) => ItemsOfString(s);
    case Double(d) => assert d in Doubles(v);
    case Arr(a) => ElemsOfWf(a, show, ok);
    case Obj(o) => MembersOfWf(o, show, ok);
    case _ =>
  }

  lemma {:induction false} ElemsOfWf(a: seq<Json>, show: Show, ok: Bytes -> bool)
    requires forall d <- DoublesIn(a) :: Printable(d, show, ok)
    ensures ElemsWf(ElemsOf(a, show), ok)
    decreases a, 1
  {
    if a != [] {
      TreeOfWf(a[0], show, ok);
      ElemsOfWf(a[1..], show, ok);
      TailOfCons(ElemsOf(a, show)[0], ElemsOf(a[1..], show));
    }
  }

  lemma {:induction false} MembersOfWf(o: seq<Field>, show: Show, ok: Bytes -> bool)
    requires forall d <- DoublesOf(o) :: Printable(d, show, ok)
    ensures MembersWf(MembersOf(o, show), ok)
    decreases o, 1
  {
    if o != [] {
      ItemsOfString(o[0].key);
      TreeOfWf(o[0].val, show, ok);
      MembersOfWf(o[1..], show, ok);
      TailOfCons(MembersOf(o, show)[0], MembersOf(o[1..], show));
    }
  }

  lemma OneDouble(d: bits64, show: Show, stod: Stod)
    ensures (forall e <- Doubles(Double(d)) :: Faithful(e, show, stod)) <==> Faithful(d, show, stod)
  {
    assert d in Doubles(Double(d));
  }

  lemma {:induction false} TreeOfValue(v: Json, show: Show, stod: Stod)
    ensures Value(TreeOf(v, show), stod) == v <==> forall d <- Doubles(v) :: Faithful(d, show, stod)
    decreases v, 0
  {
    match v
    case Int(i) => ShowIntToken(i);
    case Str(s) => ItemsOfString(s);
    case Double(d) => OneDouble(d, show, stod);
    case Arr(a) => ElemsOfValues(a, show, stod);
    case Obj(o) => MembersOfValues(o, show, stod);
    case _ =>
  }

  lemma {:induction false} ElemsOfValues(a: seq<Json>, show: Show, stod: Stod)
    ensures ElemValues(ElemsOf(a, show), stod) == a <==> forall d <- DoublesIn(a) :: Faithful(d, show, stod)
    decreases a, 1
  {
    if a != [] {
      TreeOfValue(a[0], show, stod);
      ElemsOfValues(a[1..], show, stod);
      TailOfCons(ElemsOf(a, show)[0], ElemsOf(a[1..], show));
      SameCons(Value(TreeOf(a[0], show), stod), ElemValues(ElemsOf(a[1..], show), stod), a);
    }
  }

  lemma {:induction false} MembersOfValues(o: seq<Field>, show: Show, stod: Stod)
    ensures MemberValues(MembersOf(o, show), stod) == o <==> forall d <- DoublesOf(o) :: Faithful(d, show, stod)
    decreases o, 1
  {
    if o != [] {
      ItemsOfString(o[0].key);
      TreeOfValue(o[0].val, show, stod);
      MembersOfValues(o[1..], show, stod);
      TailOfCons(MembersOf(o, show)[0], MembersOf(o[1..], show));
      SameCons(Field(o[0].key, Value(TreeOf(o[0].val, show), stod)), MemberValues(MembersOf(o[1..], show), stod), o);
    }
  }

  lemma SameCons<T>(x: T, s: seq<T>, t: seq<T>)
    requires t != []
    ensures [x] + s == t <==> x == t[0] && s == t[1..]
  {
    if [x] + s == t { TailOfCons(x, s); }
    HeadTail(t);
  }

  /** When every double in `v` prints as a readable number, `parse(dump(v))` succeeds, and
      returns `v` itself exactly when each of them reads back as the double it was. */
  lemma RoundTripIff(v: Json, show: Show, stod: Stod)
    requires forall d <- Doubles(v) :: Printable(d, show, Finite(stod))
    ensures Parse(Dump(v, show), stod).Success?
    ensures Parse(Dump(v, show), stod) == Success(v) <==> forall d <- Doubles(v) :: Faithful(d, show, stod)
  {
    TreeOfWf(v, show, Finite(stod));
    PlainText(TreeOf(v, show), Finite(stod));
    TreeOfValue(v, show, stod);
  }

  /** The protocol's case: with no doubles, dumping and parsing is the identity, whatever
      `stod` and `operator<<(double)` do. */
  lemma RoundTripDoubleFree(v: Json, show: Show, stod: Stod)
    requires Doubles(v) == {}
    ensures Parse(Dump(v, show), stod) == Success(v)
  {
    RoundTripIff(v, show, stod);
  }

  /** `operator<<` drops the point of a whole double, so 1.0 comes back as the integer 1. */
  lemma WholeDoubleBecomesInt(one: bits64, show: Show, stod: Stod)
    requires show(one) == [0x31]
    ensures Parse(Dump(Double(one), show), stod) == Success(Int(1))
  {
    OneDigit(0x31, Finite(stod));
    assert Wf(TNum([0x31]), Finite(stod)) && Value(TNum([0x31]), stod) == Int(1);
    hide Text, PText, Wf, Value;
    PlainText(TNum([0x31]), Finite(stod));
  }

  // ---- \u escapes ----

  function UniItems(hs: seq<Bytes>): seq<Item> {
    if hs == [] then [] else [Uni(hs[0])] + UniItems(hs[1..])
  }

  function UniCodes(hs: seq<Bytes>): Utf8.Str
    requires forall i | 0 <= i < |hs| :: IsHex4(hs[i])
  {
    if hs == [] then [] else [Hex4(hs[0])] + UniCodes(hs[1..])
  }

  lemma {:induction false} UniItemsValue(hs: seq<Bytes>)
    requires forall i | 0 <= i < |hs| :: IsHex4(hs[i])
    ensures ItemsWf(UniItems(hs)) && ItemsValue(UniItems(hs)) == Utf8.Encode(UniCodes(hs))
  {
    if hs != [] {
      UniItemsValue(hs[1..]);
      TailOfCons(Uni(hs[0]), UniItems(hs[1..]));
      TailOfCons(Hex4(hs[0]), UniCodes(hs[1..]));
    }
  }

  /** A string of `\u` escapes, in any mix of hex cases: the bytes read are valid UTF-8 iff
      no escape names a surrogate, and then they decode to the code points written. */
  lemma {:induction false} UnicodeEscapes(hs: seq<Bytes>, k: Bytes)
    requires forall i | 0 <= i < |hs| :: IsHex4(hs[i])
    ensures var read := PString([QUOTE] + ItemsText(UniItems(hs), k));
            var cs := UniCodes(hs);
            && read.Ok? && read.rest == k
            && (Utf8.IsUtf8(ItemsValue(read.v)) <==> Utf8.NoSurrogates(cs))
            && (Utf8.NoSurrogates(cs) ==> Utf8.Decode(ItemsValue(read.v), true) == Some(cs))
  {
    UniItemsValue(hs);
    ItemsComplete(UniItems(hs), k);
    TailOfCons(QUOTE, ItemsText(UniItems(hs), k));
    Utf8.Utf8IffNoSurrogates(UniCodes(hs));
  }

  // ---- nesting ----

  /** How deep the parser's calls to `parse_value` nest. */
  function Depth(t: Tree): nat {
    match t
    case TArr(_, es) => 1 + ElemsDepth(es)
    case TObj(_, ms) => 1 + MembersDepth(ms)
    case _ => 1
  }

  function ElemsDepth(es: seq<Elem>): nat {
    if es == [] then 0 else Max(Depth(es[0].t), ElemsDepth(es[1..]))
  }

  function MembersDepth(ms: seq<Member>): nat {
    if ms == [] then 0 else Max(Depth(ms[0].val.t), MembersDepth(ms[1..]))
  }

  /** On accepted input the calls of `parse_value` nest as deep as the value. */
  lemma {:induction false} CallsAreDepth(s: Bytes, ok: Bytes -> bool)
    requires PTree(s, ok).Ok?
    ensures Calls(s, ok) == Depth(PTree(s, ok).v)
    decreases |s|, 0
  {
    hide PElem, PElems, PMembers, ElemsCalls, MembersCalls, SkipWs, PItems, SkipNumber;
    if s[0] == LBRACE {
      if PMembers(s[1..], ok).Ok? { MembersCallsDepth(s[1..], ok); }
    } else if s[0] == LBRACKET {
      if PElems(s[1..], ok).Ok? { ElemsCallsDepth(s[1..], ok); }
    }
  }

  lemma {:induction false} ElemsCallsDepth(s: Bytes, ok: Bytes -> bool)
    requires PElems(s, ok).Ok?
    ensures ElemsCalls(s, ok) == ElemsDepth(PElems(s, ok).v)
    decreases |s|, 2
  {
    ElemCalls(s, ok);
    ElemOf(s, ok);
    hide PTree, PElem, Calls, ElemsCalls, SkipWs, Depth;
    var e, q := PElem(s, ok).v, PElem(s, ok).rest;
    CallsAreDepth(SkipWs(s), ok);
    if q[0] == COMMA {
      ElemsCallsDepth(q[1..], ok);
      TailOfCons(e, PElems(q[1..], ok).v);
    } else {
      assert [e][1..] == [];
    }
  }

  lemma {:induction false} MembersCallsDepth(s: Bytes, ok: Bytes -> bool)
    requires PMembers(s, ok).Ok?
    ensures MembersCalls(s, ok) == MembersDepth(PMembers(s, ok).v)
    decreases |s|, 2
  {
    MemberCalls(s, ok);
    var b := PKey(s).rest;
    ElemOf(b, ok);
    hide PTree, PElem, PKey, Calls, MembersCalls, SkipWs, Depth;
    var q := PElem(b, ok).rest;
    CallsAreDepth(SkipWs(b), ok);
    var ms := PMembers(s, ok).v;
    if q[0] == COMMA {
      MembersCallsDepth(q[1..], ok);
      TailOfCons(ms[0], PMembers(q[1..], ok).v);
    } else {
      assert ms[1..] == [];
    }
  }

  /** A value of depth d has consumed at least d bytes; brackets make it 2d - 1. */
  lemma {:induction false} DepthBound(t: Tree, k: Bytes, ok: Bytes -> bool)
    requires Wf(t, ok)
    ensures |Text(t, k)| >= 2 * Depth(t) - 1 + |k|
    decreases t, 0
  {
    match t
    case TNum(tok) => NumTokStart(tok);
    case TStr(items) => ItemsTextThen(items, k);
    case TArr(pad, es) => if es != [] { ElemsDepthBound(es, k, ok); }
    case TObj(pad, ms) => if ms != [] { MembersDepthBound(ms, k, ok); }
    case _ =>
  }

  lemma {:induction false} ElemsDepthBound(es: seq<Elem>, k: Bytes, ok: Bytes -> bool)
    requires es != [] && ElemsWf(es, ok)
    ensures |ElemsText(es, k)| >= 2 * ElemsDepth(es) + |k|
    decreases es, 1
  {
    var q := if |es| == 1 then [RBRACKET] + k else [COMMA] + ElemsText(es[1..], k);
    DepthBound(es[0].t, es[0].post + q, ok);
    if |es| > 1 { ElemsDepthBound(es[1..], k, ok); }
  }

  lemma {:induction false} MembersDepthBound(ms: seq<Member>, k: Bytes, ok: Bytes -> bool)
    requires ms != [] && MembersWf(ms, ok)
    ensures |MembersText(ms, k)| >= 2 * MembersDepth(ms) + |k|
    decreases ms, 1
  {
    var e := ms[0].val;
    var q := if |ms| == 1 then [RBRACE] + k else [COMMA] + MembersText(ms[1..], k);
    DepthBound(e.t, e.post + q, ok);
    if |ms| > 1 { MembersDepthBound(ms[1..], k, ok); }
    ItemsTextThen(ms[0].key, ms[0].mid + ([COLON] + (e.pre + Text(e.t, e.post + q))));
  }

  /** Nesting never goes deeper than about half the text. */
  lemma ParsedDepth(s: Bytes, ok: Bytes -> bool)
    requires PText(s, ok).Ok?
    ensures 2 * Depth(PText(s, ok).v) - 1 <= |s|
  {
    var t := PText(s, ok).v;
    AcceptsIffDerives(s, t, ok);
    var w1, w2 :| Blank(w1) && Blank(w2) && s == w1 + Text(t, w2);
    DepthBound(t, w2, ok);
  }
}
