/** A declarative JSON grammar: sections 2 to 7 of RFC 8259, with raw control bytes and
    arbitrary non-ASCII bytes also allowed inside strings.  A `Tree` is a derivation that
    keeps every blank and every spelling; `Text` is what it derives. */
module Grammar {
  import opened Bytes

  const QUOTE: byte := 0x22
  const BACKSLASH: byte := 0x5C
  const LOWER_U: byte := 0x75
  const COMMA: byte := 0x2C
  const COLON: byte := 0x3A
  const LBRACE: byte := 0x7B
  const RBRACE: byte := 0x7D
  const LBRACKET: byte := 0x5B
  const RBRACKET: byte := 0x5D
  const MINUS: byte := 0x2D
  const PLUS: byte := 0x2B
  const DOT: byte := 0x2E
  const ZERO: byte := 0x30
  const LOWER_E: byte := 0x65
  const UPPER_E: byte := 0x45

  const NULL_TEXT: Bytes := [0x6E, 0x75, 0x6C, 0x6C]
  const TRUE_TEXT: Bytes := [0x74, 0x72, 0x75, 0x65]
  const FALSE_TEXT: Bytes := [0x66, 0x61, 0x6C, 0x73, 0x65]

  predicate IsWs(b: byte) { b == 0x20 || b == 0x09 || b == 0x0A || b == 0x0D }

  predicate Blank(s: Bytes) { forall i | 0 <= i < |s| :: IsWs(s[i]) }

  // ---- numbers: section 6 ----

  predicate IsDigit(b: byte) { ZERO <= b <= 0x39 }

  predicate Digits(s: Bytes) { |s| > 0 && forall i | 0 <= i < |s| :: IsDigit(s[i]) }

  datatype Exp = Exp(e: byte, sign: Bytes, digits: Bytes)

  /** `[ minus ] int [ frac ] [ exp ]` */
  datatype Num = Num(neg: bool, whole: Bytes, frac: Option<Bytes>, exp: Option<Exp>) {
    predicate Wf() {
      && Digits(whole) && (whole[0] == ZERO ==> |whole| == 1)
      && (frac.Some? ==> Digits(frac.value))
      && (exp.Some? ==>
            && (exp.value.e == LOWER_E || exp.value.e == UPPER_E)
            && exp.value.sign in [[], [PLUS], [MINUS]]
            && Digits(exp.value.digits))
    }

    /** The number's text, followed by `k`. */
    function Text(k: Bytes): Bytes {
      (if neg then [MINUS] else []) + (whole + FracText(ExpText(k)))
    }

    function FracText(k: Bytes): Bytes {
      if frac.Some? then [DOT] + (frac.value + k) else k
    }

    function ExpText(k: Bytes): Bytes {
      if exp.Some? then [exp.value.e] + (exp.value.sign + (exp.value.digits + k)) else k
    }
  }

  ghost predicate NumTok(tok: Bytes) {
    exists n: Num :: n.Wf() && tok == n.Text([])
  }

  /** A number token with a fraction or an exponent. */
  predicate IsFractional(tok: Bytes) { DOT in tok || LOWER_E in tok || UPPER_E in tok }

  /** The text of an integer token as a mathematical integer. */
  function IntVal(tok: Bytes): int {
    if tok != [] && tok[0] == MINUS then -DigitsVal(tok[1..]) else DigitsVal(tok)
  }

  function DigitsVal(ds: Bytes): int {
    if ds == [] then 0 else 10 * DigitsVal(ds[..|ds| - 1]) + (ds[|ds| - 1] - ZERO)
  }

  const INT64_MIN: int := -0x8000_0000_0000_0000
  const INT64_MAX: int := 0x7FFF_FFFF_FFFF_FFFF

  /** Whether a number token has a value: an int64, or else one `ok` can read as a double. */
  predicate Readable(tok: Bytes, ok: Bytes -> bool) {
    (!IsFractional(tok) && INT64_MIN <= IntVal(tok) <= INT64_MAX) || ok(tok)
  }

  // ---- strings: section 7 ----

  predicate IsHex(b: byte) { IsDigit(b) || 0x61 <= b <= 0x66 || 0x41 <= b <= 0x46 }

  function HexVal(b: byte): (v: int)
    requires IsHex(b)
    ensures 0 <= v < 16
  {
    if IsDigit(b) then b - ZERO else if b >= 0x61 then b - 0x61 + 10 else b - 0x41 + 10
  }

  predicate IsHex4(h: Bytes) { |h| == 4 && IsHex(h[0]) && IsHex(h[1]) && IsHex(h[2]) && IsHex(h[3]) }

  function Hex4(h: Bytes): (v: int)
    requires IsHex4(h)
    ensures 0 <= v < 0x10000
  {
    ((HexVal(h[0]) * 16 + HexVal(h[1])) * 16 + HexVal(h[2])) * 16 + HexVal(h[3])
  }

  /** One character position of a string: itself, a two-byte escape, or `\uXXXX`. */
  datatype Item = Raw(b: byte) | Esc(c: byte) | Uni(h: Bytes) {
    predicate Wf() {
      match this
      case Raw(b) => b != QUOTE && b != BACKSLASH
      case Esc(c) => EscapeOf(c).Some?
      case Uni(h) => IsHex4(h)
    }

    function Text(): Bytes {
      match this
      case Raw(b) => [b]
      case Esc(c) => [BACKSLASH, c]
      case Uni(h) => [BACKSLASH, LOWER_U] + h
    }
  }

  /** The byte a two-byte escape stands for. */
  function EscapeOf(c: byte): Option<byte> {
    if c == QUOTE then Some(QUOTE)
    else if c == BACKSLASH then Some(BACKSLASH)
    else if c == 0x2F then Some(0x2F)      // solidus
    else if c == 0x62 then Some(0x08)      // b
    else if c == 0x66 then Some(0x0C)      // f
    else if c == 0x6E then Some(0x0A)      // n
    else if c == 0x72 then Some(0x0D)      // r
    else if c == 0x74 then Some(0x09)      // t
    else None
  }

  predicate ItemsWf(items: seq<Item>) { forall i | 0 <= i < |items| :: items[i].Wf() }

  /** The items, the closing quote, then `k`. */
  function ItemsText(items: seq<Item>, k: Bytes): Bytes {
    if items == [] then [QUOTE] + k else items[0].Text() + ItemsText(items[1..], k)
  }

  // ---- values: sections 2 to 5 ----

  datatype Tree =
    | TNull
    | TBool(v: bool)
    | TNum(tok: Bytes)
    | TStr(items: seq<Item>)
    | TArr(pad: Bytes, elems: seq<Elem>)
    | TObj(pad: Bytes, members: seq<Member>)

  /** `ws value ws`, one element of an array. */
  datatype Elem = Elem(pre: Bytes, t: Tree, post: Bytes)

  /** `ws string ws : ws value ws`, one member of an object. */
  datatype Member = Member(pre: Bytes, key: seq<Item>, mid: Bytes, val: Elem)

  /** Every number is a token `ok` or int64 can read; blanks are blank; an array or object
      has padding of its own only when it is empty. */
  ghost predicate Wf(t: Tree, ok: Bytes -> bool) {
    match t
    case TNull => true
    case TBool(_) => true
    case TNum(tok) => NumTok(tok) && Readable(tok, ok)
    case TStr(items) => ItemsWf(items)
    case TArr(pad, es) => Blank(pad) && (es != [] ==> pad == []) && ElemsWf(es, ok)
    case TObj(pad, ms) => Blank(pad) && (ms != [] ==> pad == []) && MembersWf(ms, ok)
  }

  ghost predicate ElemsWf(es: seq<Elem>, ok: Bytes -> bool) {
    es == [] ||
    (Blank(es[0].pre) && Wf(es[0].t, ok) && Blank(es[0].post) && ElemsWf(es[1..], ok))
  }

  ghost predicate MembersWf(ms: seq<Member>, ok: Bytes -> bool) {
    ms == [] ||
    (&& Blank(ms[0].pre) && ItemsWf(ms[0].key) && Blank(ms[0].mid)
     && Blank(ms[0].val.pre) && Wf(ms[0].val.t, ok) && Blank(ms[0].val.post)
     && MembersWf(ms[1..], ok))
  }

  /** The text a tree derives, followed by `k`. */
  function Text(t: Tree, k: Bytes): Bytes {
    match t
    case TNull => NULL_TEXT + k
    case TBool(v) => (if v then TRUE_TEXT else FALSE_TEXT) + k
    case TNum(tok) => tok + k
    case TStr(items) => [QUOTE] + ItemsText(items, k)
    case TArr(pad, es) => [LBRACKET] + (if es == [] then pad + ([RBRACKET] + k) else ElemsText(es, k))
    case TObj(pad, ms) => [LBRACE] + (if ms == [] then pad + ([RBRACE] + k) else MembersText(ms, k))
  }

  /** The elements, their separators, the closing bracket, then `k`. */
  function ElemsText(es: seq<Elem>, k: Bytes): Bytes
    requires es != []
  {
    es[0].pre + Text(es[0].t, es[0].post +
      (if |es| == 1 then [RBRACKET] + k else [COMMA] + ElemsText(es[1..], k)))
  }

  function MembersText(ms: seq<Member>, k: Bytes): Bytes
    requires ms != []
  {
    ms[0].pre + ([QUOTE] + ItemsText(ms[0].key, ms[0].mid + ([COLON] +
      (ms[0].val.pre + Text(ms[0].val.t, ms[0].val.post +
        (if |ms| == 1 then [RBRACE] + k else [COMMA] + MembersText(ms[1..], k)))))))
  }

  /** `s` is a JSON text with derivation `t`. */
  ghost predicate Derives(s: Bytes, t: Tree, ok: Bytes -> bool) {
    Wf(t, ok) && exists w1, w2 :: Blank(w1) && Blank(w2) && s == w1 + Text(t, w2)
  }

  // ---- what follows a text plays no part in it ----

  lemma {:induction false} ItemsTextThen(items: seq<Item>, k: Bytes)
    ensures ItemsText(items, k) == ItemsText(items, []) + k
  {
    if items != [] {
      ItemsTextThen(items[1..], k);
    }
  }

  /** `Text(t, k)` is the text of `t` followed by `k`. */
  lemma {:induction false} TextThen(t: Tree, k: Bytes)
    ensures Text(t, k) == Text(t, []) + k
    decreases t, 0
  {
    match t
    case TStr(items) => ItemsTextThen(items, k);
    case TArr(pad, es) => if es != [] { ElemsTextThen(es, k); }
    case TObj(pad, ms) => if ms != [] { MembersTextThen(ms, k); }
    case _ =>
  }

  lemma {:induction false} ElemsTextThen(es: seq<Elem>, k: Bytes)
    requires es != []
    ensures ElemsText(es, k) == ElemsText(es, []) + k
    decreases es, 1
  {
    var e := es[0];
    if |es| > 1 { ElemsTextThen(es[1..], k); }
    var tail := (j: Bytes) => e.post + (if |es| == 1 then [RBRACKET] + j else [COMMA] + ElemsText(es[1..], j));
    assert tail(k) == tail([]) + k;
    TextThen(e.t, tail(k));
    TextThen(e.t, tail([]));
  }

  /** One member, then `q`. */
  function MemberThen(m: Member, q: Bytes): Bytes {
    m.pre + ([QUOTE] + ItemsText(m.key, m.mid + ([COLON] + (m.val.pre + Text(m.val.t, m.val.post + q)))))
  }

  function AfterMember(ms: seq<Member>, k: Bytes): Bytes
    requires ms != []
  {
    if |ms| == 1 then [RBRACE] + k else [COMMA] + MembersText(ms[1..], k)
  }

  lemma {:induction false} MembersTextThen(ms: seq<Member>, k: Bytes)
    requires ms != []
    ensures MembersText(ms, k) == MembersText(ms, []) + k
    decreases ms, 1
  {
    var m, q := ms[0], AfterMember(ms, []);
    if |ms| > 1 {
      MembersTextThen(ms[1..], k);
      Assoc([COMMA], MembersText(ms[1..], []), k);
    } else {
      assert [RBRACE] + [] == [RBRACE];
    }
    assert AfterMember(ms, k) == q + k;
    assert MembersText(ms, k) == MemberThen(m, q + k) && MembersText(ms, []) == MemberThen(m, q);
    hide Text, MembersText, AfterMember, ItemsText;
    TextThen(m.val.t, m.val.post + (q + k));
    TextThen(m.val.t, m.val.post + q);
    var t := Text(m.val.t, []);
    Assoc(m.val.post, q, k);
    Assoc(t, m.val.post + q, k);
    Assoc(m.val.pre, t + (m.val.post + q), k);
    Assoc([COLON], m.val.pre + (t + (m.val.post + q)), k);
    KeyThen(m, [COLON] + (m.val.pre + Text(m.val.t, m.val.post + q)), k);
  }

  lemma KeyThen(m: Member, b: Bytes, k: Bytes)
    ensures m.pre + ([QUOTE] + ItemsText(m.key, m.mid + (b + k))) ==
            (m.pre + ([QUOTE] + ItemsText(m.key, m.mid + b))) + k
  {
    hide ItemsText;
    ItemsTextThen(m.key, m.mid + (b + k));
    ItemsTextThen(m.key, m.mid + b);
    var t := ItemsText(m.key, []);
    Assoc(m.mid, b, k);
    Assoc(t, m.mid + b, k);
    Assoc([QUOTE], t + (m.mid + b), k);
    Assoc(m.pre, [QUOTE] + (t + (m.mid + b)), k);
  }
}
