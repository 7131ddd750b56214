/** The descent accepts exactly the grammar: sound, complete, and with one derivation a text. */
module DescentProofs {
  import opened Bytes
  import opened Grammar
  import opened Descent

  // ---- blanks and digits ----

  lemma {:induction false} WsLenBlank(s: Bytes)
    ensures Blank(Lead(s)) && s == Lead(s) + SkipWs(s)
    ensures SkipWs(s) == [] || !IsWs(SkipWs(s)[0])
  {
    if s != [] && IsWs(s[0]) { WsLenBlank(s[1..]); }
  }

  lemma {:induction false} SkipBlank(w: Bytes, k: Bytes)
    requires Blank(w) && (k == [] || !IsWs(k[0]))
    ensures Lead(w + k) == w && SkipWs(w + k) == k
  {
    if w != [] {
      assert (w + k)[1..] == w[1..] + k;
      SkipBlank(w[1..], k);
      assert w == [w[0]] + w[1..];
    }
  }

  lemma {:induction false} SkipDigitsSound(s: Bytes)
    requires StartsWithDigit(s)
    ensures var ds := s[..|s| - |SkipDigits(s)|]; Digits(ds) && s == ds + SkipDigits(s)
  {
    if StartsWithDigit(s[1..]) { SkipDigitsSound(s[1..]); }
    assert SkipDigits(s) == SkipDigits(s[1..]);
  }

  lemma {:induction false} SkipDigitsComplete(ds: Bytes, k: Bytes)
    requires (forall i | 0 <= i < |ds| :: IsDigit(ds[i])) && !StartsWithDigit(k)
    ensures SkipDigits(ds + k) == k
  {
    if ds == [] {
      assert ds + k == k;
    } else {
      assert (ds + k)[1..] == ds[1..] + k;
      SkipDigitsComplete(ds[1..], k);
    }
  }

  // ---- numbers ----

  /** No byte of `k` could extend a number that ends just before it. */
  predicate Ends(k: Bytes) {
    k == [] || !(IsDigit(k[0]) || k[0] == DOT || k[0] == LOWER_E || k[0] == UPPER_E)
  }

  lemma SkipExpComplete(n: Num, k: Bytes)
    requires n.Wf() && Ends(k)
    ensures SkipExp(n.ExpText(k)) == Some(k) && !StartsWithDigit(n.ExpText(k))
    ensures n.ExpText(k) == [] || n.ExpText(k)[0] != DOT
  {
    if n.exp.Some? {
      var x := n.exp.value;
      var p := x.digits + k;
      var c := [x.e] + (x.sign + p);
      SkipDigitsComplete(x.digits, k);
      SkipExpSign(x.e, x.sign, p);
    }
  }

  lemma {:induction false} SkipExpSign(e: byte, sign: Bytes, p: Bytes)
    requires e == LOWER_E || e == UPPER_E
    requires (sign == [] || sign == [PLUS] || sign == [MINUS]) && StartsWithDigit(p)
    ensures SkipExp([e] + (sign + p)) == Some(SkipDigits(p))
  {
    var c := [e] + (sign + p);
    if sign == [] {
      assert c[1..] == p && c[1] == p[0];
    } else {
      assert c[2..] == p && c[1] == sign[0];
    }
  }

  lemma SkipFracComplete(n: Num, c: Bytes)
    requires n.Wf() && !StartsWithDigit(c) && (c == [] || c[0] != DOT)
    ensures SkipFrac(n.FracText(c)) == Some(c) && !StartsWithDigit(n.FracText(c))
  {
    if n.frac.Some? {
      var p := n.frac.value + c;
      assert ([DOT] + p)[1..] == p && p[0] == n.frac.value[0];
      SkipDigitsComplete(n.frac.value, c);
    }
  }

  lemma SkipWholeComplete(n: Num, b: Bytes)
    requires n.Wf() && !StartsWithDigit(b)
    ensures SkipWhole((if n.neg then [MINUS] else []) + (n.whole + b)) == Some(b)
  {
    var p := n.whole + b;
    var s := (if n.neg then [MINUS] else []) + p;
    assert p[0] == n.whole[0];
    assert (if s[0] == MINUS then s[1..] else s) == p;
    if n.whole[0] == ZERO {
      assert p[1..] == b;
    } else {
      SkipDigitsComplete(n.whole, b);
    }
  }

  lemma SkipNumberComplete(n: Num, k: Bytes)
    requires n.Wf() && Ends(k)
    ensures SkipNumber(n.Text(k)) == Some(k)
  {
    SkipExpComplete(n, k);
    SkipFracComplete(n, n.ExpText(k));
    SkipWholeComplete(n, n.FracText(n.ExpText(k)));
  }

  lemma SkipWholeSound(s: Bytes) returns (neg: bool, whole: Bytes)
    requires SkipWhole(s).Some?
    ensures Digits(whole) && (whole[0] == ZERO ==> |whole| == 1)
    ensures s == (if neg then [MINUS] else []) + (whole + SkipWhole(s).value)
  {
    neg := s[0] == MINUS;
    var p := if neg then s[1..] else s;
    var a := SkipWhole(s).value;
    whole := p[..|p| - |a|];
    if p[0] != ZERO { SkipDigitsSound(p); }
    assert p == whole + a;
    assert s == (if neg then [MINUS] else []) + p;
  }

  lemma SkipFracSound(a: Bytes) returns (frac: Option<Bytes>)
    requires SkipFrac(a).Some?
    ensures frac.Some? ==> Digits(frac.value)
    ensures a == Num(false, [], frac, None).FracText(SkipFrac(a).value)
  {
    frac := None;
    if a != [] && a[0] == DOT {
      var p := a[1..];
      SkipDigitsSound(p);
      frac := Some(p[..|p| - |SkipDigits(p)|]);
      assert a == [DOT] + p;
    }
  }

  lemma SkipExpSound(b: Bytes) returns (exp: Option<Exp>)
    requires SkipExp(b).Some?
    ensures Num(false, [ZERO], None, exp).Wf()
    ensures b == Num(false, [], None, exp).ExpText(SkipExp(b).value)
  {
    exp := None;
    if b != [] && (b[0] == LOWER_E || b[0] == UPPER_E) {
      var sign := if |b| > 1 && (b[1] == PLUS || b[1] == MINUS) then [b[1]] else [];
      var q := b[1 + |sign|..];
      SkipDigitsSound(q);
      exp := Some(Exp(b[0], sign, q[..|q| - |SkipDigits(q)|]));
      HeadTail(b);
      if sign == [] {
        assert [] + q == q;
      } else {
        HeadTail(b[1..]);
        assert b[1..][1..] == b[2..];
      }
    }
  }

  lemma SkipNumberSound(s: Bytes) returns (n: Num)
    requires SkipNumber(s).Some?
    ensures n.Wf() && s == n.Text(SkipNumber(s).value)
  {
    var neg, whole := SkipWholeSound(s);
    var a := SkipWhole(s).value;
    var frac := SkipFracSound(a);
    var exp := SkipExpSound(SkipFrac(a).value);
    n := Num(neg, whole, frac, exp);
  }

  lemma NumTextThen(n: Num, k: Bytes)
    ensures n.Text(k) == n.Text([]) + k
  {
    var c0, c := n.ExpText([]), n.ExpText(k);
    ExpTextThen(n, k);
    var b0, b := n.FracText(c0), n.FracText(c);
    if n.frac.Some? {
      Assoc(n.frac.value, c0, k);
      Assoc([DOT], n.frac.value + c0, k);
    }
    assert b == b0 + k;
    Assoc(n.whole, b0, k);
    Assoc(if n.neg then [MINUS] else [], n.whole + b0, k);
  }

  lemma ExpTextThen(n: Num, k: Bytes)
    ensures n.ExpText(k) == n.ExpText([]) + k
  {
    if n.exp.Some? {
      var x := n.exp.value;
      assert x.digits + [] == x.digits;
      Assoc(x.sign, x.digits, k);
      Assoc([x.e], x.sign + x.digits, k);
    } else {
      assert [] + k == k;
    }
  }

  lemma NumberSound(s: Bytes, ok: Bytes -> bool)
    requires PNumber(s, ok).Ok?
    ensures var r := PNumber(s, ok); NumTok(r.v) && Readable(r.v, ok) && s == r.v + r.rest
  {
    var n := SkipNumberSound(s);
    var rest := SkipNumber(s).value;
    NumTextThen(n, rest);
    assert n.Text([]) == s[..|s| - |rest|];
  }

  /** A number token starts with a minus or a digit. */
  lemma NumTokStart(tok: Bytes)
    requires NumTok(tok)
    ensures tok != [] && (tok[0] == MINUS || IsDigit(tok[0]))
  {
    var n: Num :| n.Wf() && tok == n.Text([]);
    assert n.whole != [];
  }

  lemma NumberComplete(tok: Bytes, k: Bytes, ok: Bytes -> bool)
    requires NumTok(tok) && Readable(tok, ok) && Ends(k)
    ensures PNumber(tok + k, ok) == Ok(tok, k)
  {
    var n: Num :| n.Wf() && tok == n.Text([]);
    NumTextThen(n, k);
    SkipNumberComplete(n, k);
    assert (tok + k)[..|tok|] == tok;
  }

  // ---- strings ----

  lemma {:induction false} ItemsSound(s: Bytes)
    requires PItems(s).Ok?
    ensures var r := PItems(s); ItemsWf(r.v) && s == ItemsText(r.v, r.rest)
    decreases |s|
  {
    var items := PItems(s).v;
    if s[0] != QUOTE {
      var n := |items[0].Text()|;
      assert s == items[0].Text() + s[n..];
      ItemsSound(s[n..]);
      assert items[1..] == PItems(s[n..]).v;
    }
  }

  lemma {:induction false} ItemsComplete(items: seq<Item>, k: Bytes)
    requires ItemsWf(items)
    ensures PItems(ItemsText(items, k)) == Ok(items, k)
  {
    if items == [] {
      assert ([QUOTE] + k)[1..] == k;
    } else {
      var rest := ItemsText(items[1..], k);
      var s := items[0].Text() + rest;
      ItemsComplete(items[1..], k);
      assert s[|items[0].Text()|..] == rest;
      if items[0].Uni? { assert s[2..6] == items[0].h; }
      HeadTail(items);
    }
  }

  // ---- soundness ----

  lemma {:induction false} TreeSound(s: Bytes, ok: Bytes -> bool)
    requires PTree(s, ok).Ok?
    ensures var r := PTree(s, ok); Wf(r.v, ok) && s == Text(r.v, r.rest)
    decreases |s|, 0
  {
    if s[0] == LBRACE {
      ObjectSound(s, ok);
    } else if s[0] == LBRACKET {
      ArraySound(s, ok);
    } else {
      ScalarSound(s, ok);
    }
  }

  lemma {:induction false} ObjectSound(s: Bytes, ok: Bytes -> bool)
    requires PTree(s, ok).Ok? && s[0] == LBRACE
    ensures var r := PTree(s, ok); Wf(r.v, ok) && s == Text(r.v, r.rest)
    decreases |s|, 0, 0
  {
    var rest := PTree(s, ok).rest;
    WsLenBlank(s[1..]);
    var r := SkipWs(s[1..]);
    assert s == [s[0]] + s[1..];
    if r != [] && r[0] == RBRACE {
      assert r == [RBRACE] + rest;
    } else {
      MembersSound(s[1..], ok);
    }
  }

  lemma {:induction false} ArraySound(s: Bytes, ok: Bytes -> bool)
    requires PTree(s, ok).Ok? && s[0] == LBRACKET
    ensures var r := PTree(s, ok); Wf(r.v, ok) && s == Text(r.v, r.rest)
    decreases |s|, 0, 0
  {
    var rest := PTree(s, ok).rest;
    WsLenBlank(s[1..]);
    var r := SkipWs(s[1..]);
    assert s == [s[0]] + s[1..];
    if r != [] && r[0] == RBRACKET {
      assert r == [RBRACKET] + rest;
    } else {
      ElemsSound(s[1..], ok);
    }
  }

  lemma ScalarSound(s: Bytes, ok: Bytes -> bool)
    requires PTree(s, ok).Ok? && s[0] != LBRACE && s[0] != LBRACKET
    ensures var r := PTree(s, ok); Wf(r.v, ok) && s == Text(r.v, r.rest)
  {
    hide PElems, PMembers, PItems, PNumber, Starts, ItemsText, IntVal;
    if s[0] == QUOTE {
      ItemsSound(s[1..]);
      HeadTail(s);
    } else if s[0] == 0x74 || s[0] == 0x66 {
      if Starts(s, TRUE_TEXT) { WordSound(s, TRUE_TEXT); } else { WordSound(s, FALSE_TEXT); }
    } else if s[0] == 0x6E {
      WordSound(s, NULL_TEXT);
    } else {
      NumberSound(s, ok);
    }
  }

  lemma WordSound(s: Bytes, word: Bytes)
    requires Starts(s, word)
    ensures s == word + s[|word|..]
  {
  }

  lemma {:induction false} ElemSound(s: Bytes, ok: Bytes -> bool)
    requires PElem(s, ok).Ok?
    ensures var r := PElem(s, ok);
            Blank(r.v.pre) && Wf(r.v.t, ok) && Blank(r.v.post) && s == r.v.pre + Text(r.v.t, r.v.post + r.rest)
    decreases |s|, 1
  {
    WsLenBlank(s);
    TreeSound(SkipWs(s), ok);
    WsLenBlank(PTree(SkipWs(s), ok).rest);
  }

  lemma KeySound(s: Bytes)
    requires PKey(s).Ok?
    ensures var r := PKey(s);
            Blank(r.v.0) && ItemsWf(r.v.1) && Blank(r.v.2)
            && s == r.v.0 + ([QUOTE] + ItemsText(r.v.1, r.v.2 + ([COLON] + r.rest)))
  {
    WsLenBlank(s);
    var s1 := SkipWs(s);
    HeadTail(s1);
    ItemsSound(s1[1..]);
    var a := PString(s1).rest;
    WsLenBlank(a);
    HeadTail(SkipWs(a));
  }

  lemma {:induction false} ElemsSound(s: Bytes, ok: Bytes -> bool)
    requires PElems(s, ok).Ok?
    ensures var r := PElems(s, ok); ElemsWf(r.v, ok) && s == ElemsText(r.v, r.rest)
    decreases |s|, 2
  {
    ElemSound(s, ok);
    var q := PElem(s, ok).rest;
    HeadTail(q);
    if q[0] == COMMA {
      ElemsSound(q[1..], ok);
      TailOfCons(PElem(s, ok).v, PElems(q[1..], ok).v);
    }
  }

  lemma {:induction false} MembersSound(s: Bytes, ok: Bytes -> bool)
    requires PMembers(s, ok).Ok?
    ensures var r := PMembers(s, ok); MembersWf(r.v, ok) && s == MembersText(r.v, r.rest)
    decreases |s|, 2
  {
    KeySound(s);
    var b := PKey(s).rest;
    ElemSound(b, ok);
    var q := PElem(b, ok).rest;
    HeadTail(q);
    if q[0] == COMMA {
      MembersSound(q[1..], ok);
      TailOfCons(PMembers(s, ok).v[0], PMembers(q[1..], ok).v);
    }
  }

  // ---- completeness ----

  /** A text never starts with a blank. */
  lemma TextStart(t: Tree, k: Bytes, ok: Bytes -> bool)
    requires Wf(t, ok)
    ensures Text(t, k) != [] && !IsWs(Text(t, k)[0])
  {
    if t.TNum? { NumTokStart(t.tok); }
  }

  /** A derivation followed by anything that cannot extend it is read back exactly. */
  lemma {:induction false} TreeComplete(t: Tree, k: Bytes, ok: Bytes -> bool)
    requires Wf(t, ok) && (t.TNum? ==> Ends(k))
    ensures PTree(Text(t, k), ok) == Ok(t, k)
    decreases t, 0
  {
    var s := Text(t, k);
    match t
    case TNull =>
      assert s[..4] == NULL_TEXT && s[4..] == k;
    case TBool(v) =>
      if v { assert s[..4] == TRUE_TEXT && s[4..] == k; }
      else { assert s[..5] == FALSE_TEXT && s[5..] == k; assert s[0] != TRUE_TEXT[0]; }
    case TNum(tok) =>
      NumTokStart(tok);
      NumberComplete(tok, k, ok);
    case TStr(items) =>
      assert s[1..] == ItemsText(items, k);
      ItemsComplete(items, k);
    case TArr(pad, es) =>
      if es == [] {
        assert s[1..] == pad + ([RBRACKET] + k);
        SkipBlank(pad, [RBRACKET] + k);
      } else {
        assert s[1..] == ElemsText(es, k);
        ElemsComplete(es, k, ok);
      }
    case TObj(pad, ms) =>
      if ms == [] {
        assert s[1..] == pad + ([RBRACE] + k);
        SkipBlank(pad, [RBRACE] + k);
      } else {
        assert s[1..] == MembersText(ms, k);
        MembersComplete(ms, k, ok);
      }
  }

  /** What follows an element or a member ends any number before it. */
  lemma BlankThenEnds(w: Bytes, k: Bytes)
    requires Blank(w) && k != [] && (k[0] == COMMA || k[0] == RBRACKET || k[0] == RBRACE)
    ensures Ends(w + k) && SkipWs(w + k) == k && Lead(w + k) == w
  {
    SkipBlank(w, k);
  }

  lemma {:induction false} ElemComplete(e: Elem, q: Bytes, ok: Bytes -> bool)
    requires Blank(e.pre) && Wf(e.t, ok) && Blank(e.post)
    requires q != [] && (q[0] == COMMA || q[0] == RBRACKET || q[0] == RBRACE)
    ensures PElem(e.pre + Text(e.t, e.post + q), ok) == Ok(e, q)
    ensures var r := SkipWs(e.pre + Text(e.t, e.post + q)); r != [] && r[0] != RBRACKET
    decreases e, 1
  {
    BlankThenEnds(e.post, q);
    TextStart(e.t, e.post + q, ok);
    SkipBlank(e.pre, Text(e.t, e.post + q));
    TreeComplete(e.t, e.post + q, ok);
    if e.t.TNum? { NumTokStart(e.t.tok); }
  }

  lemma KeyComplete(pre: Bytes, key: seq<Item>, mid: Bytes, c: Bytes)
    requires Blank(pre) && ItemsWf(key) && Blank(mid)
    ensures var s := pre + ([QUOTE] + ItemsText(key, mid + ([COLON] + c)));
            PKey(s) == Ok((pre, key, mid), c) && SkipWs(s) != [] && SkipWs(s)[0] == QUOTE
  {
    var b := [COLON] + c;
    SkipBlank(mid, b);
    ItemsComplete(key, mid + b);
    var s1 := [QUOTE] + ItemsText(key, mid + b);
    TailOfCons(QUOTE, ItemsText(key, mid + b));
    SkipBlank(pre, s1);
    TailOfCons(COLON, c);
  }

  lemma ElemsLast(s: Bytes, e: Elem, k: Bytes, ok: Bytes -> bool)
    requires PElem(s, ok) == Ok(e, [RBRACKET] + k)
    ensures PElems(s, ok) == Ok([e], k)
  {
    TailOfCons(RBRACKET, k);
  }

  lemma ElemsMore(s: Bytes, e: Elem, u: Bytes, es: seq<Elem>, k: Bytes, ok: Bytes -> bool)
    requires PElem(s, ok) == Ok(e, [COMMA] + u) && PElems(u, ok) == Ok(es, k)
    ensures PElems(s, ok) == Ok([e] + es, k)
  {
    TailOfCons(COMMA, u);
  }

  lemma {:induction false} ElemsComplete(es: seq<Elem>, k: Bytes, ok: Bytes -> bool)
    requires es != [] && ElemsWf(es, ok)
    ensures PElems(ElemsText(es, k), ok) == Ok(es, k)
    ensures var r := SkipWs(ElemsText(es, k)); r != [] && r[0] != RBRACKET
    decreases es, 2
  {
    hide PElems, PElem, PTree;
    HeadTail(es);
    if |es| == 1 {
      ElemComplete(es[0], [RBRACKET] + k, ok);
      ElemsLast(ElemsText(es, k), es[0], k, ok);
    } else {
      ElemComplete(es[0], [COMMA] + ElemsText(es[1..], k), ok);
      ElemsComplete(es[1..], k, ok);
      ElemsMore(ElemsText(es, k), es[0], ElemsText(es[1..], k), es[1..], k, ok);
    }
  }

  lemma MembersLast(s: Bytes, b: Bytes, m: Member, k: Bytes, ok: Bytes -> bool)
    requires PKey(s) == Ok((m.pre, m.key, m.mid), b) && PElem(b, ok) == Ok(m.val, [RBRACE] + k)
    ensures PMembers(s, ok) == Ok([m], k)
  {
    TailOfCons(RBRACE, k);
  }

  lemma MembersMore(s: Bytes, b: Bytes, m: Member, u: Bytes, ms: seq<Member>, k: Bytes, ok: Bytes -> bool)
    requires PKey(s) == Ok((m.pre, m.key, m.mid), b) && PElem(b, ok) == Ok(m.val, [COMMA] + u)
    requires PMembers(u, ok) == Ok(ms, k)
    ensures PMembers(s, ok) == Ok([m] + ms, k)
  {
    TailOfCons(COMMA, u);
  }

  lemma {:induction false} MembersComplete(ms: seq<Member>, k: Bytes, ok: Bytes -> bool)
    requires ms != [] && MembersWf(ms, ok)
    ensures PMembers(MembersText(ms, k), ok) == Ok(ms, k)
    ensures var r := SkipWs(MembersText(ms, k)); r != [] && r[0] != RBRACE
    decreases ms, 2
  {
    hide PMembers, PKey, PElem, PTree;
    var m := ms[0];
    var q := if |ms| == 1 then [RBRACE] + k else [COMMA] + MembersText(ms[1..], k);
    var b := m.val.pre + Text(m.val.t, m.val.post + q);
    KeyComplete(m.pre, m.key, m.mid, b);
    ElemComplete(m.val, q, ok);
    HeadTail(ms);
    if |ms| == 1 {
      MembersLast(MembersText(ms, k), b, m, k, ok);
    } else {
      MembersComplete(ms[1..], k, ok);
      MembersMore(MembersText(ms, k), b, m, MembersText(ms[1..], k), ms[1..], k, ok);
    }
  }

  // ---- main results ----

  /** The parser accepts a text, with derivation `t`, iff `t` derives it.  Since `PText` is
      a function this also says that no text has two derivations. */
  lemma AcceptsIffDerives(s: Bytes, t: Tree, ok: Bytes -> bool)
    ensures PText(s, ok) == Ok(t, []) <==> Derives(s, t, ok)
  {
    if PText(s, ok) == Ok(t, []) {
      WsLenBlank(s);
      TreeSound(SkipWs(s), ok);
      var r := PTree(SkipWs(s), ok).rest;
      WsLenBlank(r);
      assert Blank(Lead(s)) && Blank(r) && s == Lead(s) + Text(t, r);
    }
    if Derives(s, t, ok) {
      var w1, w2 :| Blank(w1) && Blank(w2) && s == w1 + Text(t, w2);
      TextStart(t, w2, ok);
      SkipBlank(w1, Text(t, w2));
      TreeComplete(t, w2, ok);
      SkipBlank(w2, []);
      assert w2 + [] == w2;
    }
  }

  /** A text that is not a number delimits itself: if a prefix of it is accepted too, both
      have the same derivation and only blanks follow the prefix. */
  lemma PrefixFree(p: Bytes, q: Bytes, ok: Bytes -> bool)
    requires PText(p, ok).Ok? && PText(p + q, ok).Ok?
    requires !PText(p, ok).v.TNum? || !PText(p + q, ok).v.TNum?
    ensures PText(p, ok) == PText(p + q, ok) && Blank(q)
  {
    hide PText, PTree, Text, Wf;
    var t := PText(p, ok).v;
    AcceptsIffDerives(p, t, ok);
    var w1, w2 :| Blank(w1) && Blank(w2) && p == w1 + Text(t, w2);
    TextThen(t, w2);
    TextThen(t, w2 + q);
    assert p + q == w1 + Text(t, w2 + q);
    ContinueText(w1, t, w2 + q, ok);
    BlankSuffix(w2, q);
  }

  /** Conversely blanks may follow any text. */
  lemma BlanksAfter(p: Bytes, q: Bytes, ok: Bytes -> bool)
    requires PText(p, ok).Ok? && Blank(q)
    ensures PText(p + q, ok) == PText(p, ok)
  {
    hide PText, PTree, Text, Wf;
    var t := PText(p, ok).v;
    AcceptsIffDerives(p, t, ok);
    var w1, w2 :| Blank(w1) && Blank(w2) && p == w1 + Text(t, w2);
    TextThen(t, w2);
    TextThen(t, w2 + q);
    Assoc(Text(t, []), w2, q);
    Assoc(w1, Text(t, w2), q);
    assert Blank(w2 + q) && p + q == w1 + Text(t, w2 + q);
    AcceptsIffDerives(p + q, t, ok);
  }

  lemma ContinueText(w: Bytes, t: Tree, k: Bytes, ok: Bytes -> bool)
    requires Blank(w) && Wf(t, ok) && PText(w + Text(t, k), ok).Ok?
    requires !t.TNum? || !PText(w + Text(t, k), ok).v.TNum?
    ensures PText(w + Text(t, k), ok).v == t && SkipWs(k) == []
  {
    TextStart(t, k, ok);
    SkipBlank(w, Text(t, k));
    if t.TNum? {
      NumTokStart(t.tok);
      NumberStart(Text(t, k), ok);
    } else {
      TreeComplete(t, k, ok);
    }
  }

  lemma NumberStart(s: Bytes, ok: Bytes -> bool)
    requires PTree(s, ok).Ok? && (s[0] == MINUS || IsDigit(s[0]))
    ensures PTree(s, ok).v.TNum?
  {
  }

  lemma BlankSuffix(w: Bytes, q: Bytes)
    requires SkipWs(w + q) == []
    ensures Blank(q)
  {
    WsLenBlank(w + q);
    assert w + q == Lead(w + q);
    assert forall i | 0 <= i < |q| :: q[i] == (w + q)[|w| + i];
  }

  lemma OneDigit(d: byte, ok: Bytes -> bool)
    requires IsDigit(d)
    ensures NumTok([d]) && IntVal([d]) == d - ZERO && Readable([d], ok)
  {
    var a := Num(false, [d], None, None);
    assert [d] + [] == [d] && [] + [d] == [d];
    assert a.Wf() && a.Text([]) == [d];
    assert DigitsVal([d][..0]) == 0;
  }

  lemma TwoDigits(d: byte, e: byte, ok: Bytes -> bool)
    requires IsDigit(d) && IsDigit(e) && d != ZERO
    ensures NumTok([d, e]) && Readable([d, e], ok)
  {
    var a := Num(false, [d, e], None, None);
    assert a.Wf() && a.Text([]) == [d, e];
    OneDigit(d, ok);
    assert [d, e][..1] == [d];
  }

  /** Numbers are the exception: `1` and `12` are both texts. */
  lemma NumbersAreNotPrefixFree(ok: Bytes -> bool)
    ensures PText([0x31], ok) == Ok(TNum([0x31]), [])
    ensures PText([0x31, 0x32], ok) == Ok(TNum([0x31, 0x32]), [])
  {
    OneDigit(0x31, ok);
    TwoDigits(0x31, 0x32, ok);
    PlainText(TNum([0x31]), ok);
    PlainText(TNum([0x31, 0x32]), ok);
    assert [0x31] + [] == [0x31] && [0x31, 0x32] + [] == [0x31, 0x32];
  }

  /** A well-formed tree's own text is read back as that tree. */
  lemma PlainText(t: Tree, ok: Bytes -> bool)
    requires Wf(t, ok)
    ensures PText(Text(t, []), ok) == Ok(t, [])
  {
    assert Blank([]) && Text(t, []) == [] + Text(t, []);
    AcceptsIffDerives(Text(t, []), t, ok);
  }

  // ---- the calls that read an element and a key ----

  lemma SkipWsTwice(s: Bytes)
    ensures SkipWs(SkipWs(s)) == SkipWs(s)
  {
    WsLenBlank(s);
  }

  /** `PElem` in terms of the two calls that read it. */
  lemma ElemOf(s: Bytes, ok: Bytes -> bool)
    ensures match PTree(SkipWs(s), ok)
            case Ok(t, r) => PElem(s, ok).Ok? && PElem(s, ok).v.t == t && PElem(s, ok).rest == SkipWs(r)
            case Err(e) => PElem(s, ok) == Err(e)
  {
  }

  /** `PKey` in terms of the calls that read it. */
  lemma KeyOf(s: Bytes)
    ensures match PString(SkipWs(s))
            case Err(e) => PKey(s) == Err(e)
            case Ok(key, a) =>
              var b := SkipWs(a);
              if b == [] || b[0] != COLON then PKey(s) == Err(Expected(COLON))
              else PKey(s).Ok? && PKey(s).v.1 == key && PKey(s).rest == b[1..]
  {
  }
}
