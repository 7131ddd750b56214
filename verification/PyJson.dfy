/** `json.loads` and `json.dumps` on the grammar's derivations. */
module PyJson {
  import opened Bytes
  import opened Grammar
  import opened Descent
  import opened DescentProofs
  import opened CppJson
  import opened PyText
  import opened RoundTrip
  import opened Utf8

  datatype PyVal =
    | PNone
    | PBool(b: bool)
    | PInt(n: int)
    | PFloat(tok: Bytes)          // a float, known only by the token it was read from
    | PStr(s: Str)
    | PList(l: seq<PyVal>)
    | PDict(d: Dict)

  datatype Entry = Entry(key: Str, val: PyVal)

  /** A dict in insertion order. */
  type Dict = seq<Entry>

  predicate Has(d: Dict, key: Str) { exists i | 0 <= i < |d| :: d[i].key == key }

  predicate DistinctKeys(d: Dict) { forall i, j | 0 <= i < j < |d| :: d[i].key != d[j].key }

  /** `d.get(key)`, None when the key is absent. */
  function Get(d: Dict, key: Str): Option<PyVal> {
    if d == [] then None
    else if d[0].key == key then Some(d[0].val)
    else Get(d[1..], key)
  }

  /** `d[key] = val`: in place when the key is present, else at the end. */
  function SetItem(d: Dict, key: Str, val: PyVal): Dict {
    if d == [] then [Entry(key, val)]
    else if d[0].key == key then [Entry(key, val)] + d[1..]
    else [d[0]] + SetItem(d[1..], key, val)
  }

  /** The dict `json.loads` builds from members in order: the last of equal keys wins. */
  function FromPairs(ps: Dict): Dict {
    if ps == [] then []
    else SetItem(FromPairs(ps[..|ps| - 1]), ps[|ps| - 1].key, ps[|ps| - 1].val)
  }

  // ---- loads ----

  /** The Python value of a derivation.  Integers are unbounded. */
  function PyValue(t: Tree): PyVal {
    match t
    case TNull => PNone
    case TBool(v) => PBool(v)
    case TNum(tok) => if IsFractional(tok) then PFloat(tok) else PInt(IntVal(tok))
    case TStr(items) => PStr(PyStr(items))
    case TArr(_, es) => PList(PyElems(es))
    case TObj(_, ms) => PDict(FromPairs(PyPairs(ms)))
  }

  function PyElems(es: seq<Elem>): seq<PyVal> {
    if es == [] then [] else [PyValue(es[0].t)] + PyElems(es[1..])
  }

  function PyPairs(ms: seq<Member>): Dict {
    if ms == [] then []
    else [Entry(PyStr(ms[0].key), PyValue(ms[0].val.t))] + PyPairs(ms[1..])
  }

  /** Every string in a derivation, keys included. */
  function Strings(t: Tree): set<seq<Item>> {
    match t
    case TStr(items) => {items}
    case TArr(_, es) => ElemStrings(es)
    case TObj(_, ms) => MemberStrings(ms)
    case _ => {}
  }

  function ElemStrings(es: seq<Elem>): set<seq<Item>> {
    if es == [] then {} else Strings(es[0].t) + ElemStrings(es[1..])
  }

  function MemberStrings(ms: seq<Member>): set<seq<Item>> {
    if ms == [] then {} else {ms[0].key} + Strings(ms[0].val.t) + MemberStrings(ms[1..])
  }

  /** Python reads any number token, as an int or a float. */
  function AnyNumber(): Bytes -> bool { (tok: Bytes) => true }

  /** `json.loads(data.decode("utf-8"))`: None for a UnicodeDecodeError or a JSONDecodeError.
      Python's strict mode refuses raw control characters inside strings. */
  function Loads(data: Bytes): Option<PyVal> {
    if !IsUtf8(data) then None
    else
      match PText(data, AnyNumber())
      case Err(_) => None
      case Ok(t, _) => if forall items <- Strings(t) :: NoControls(items) then Some(PyValue(t)) else None
  }

  // ---- dumps ----

  function PyTree(v: PyVal): Tree {
    match v
    case PNone => TNull
    case PBool(b) => TBool(b)
    case PInt(n) => TNum(ShowInt(n))
    case PFloat(tok) => TNum(tok)
    case PStr(s) => TStr(PyItems(s))
    case PList(l) => TArr([], PyElemsOf(l))
    case PDict(d) => TObj([], PyMembersOf(d))
  }

  function PyElemsOf(l: seq<PyVal>): seq<Elem> {
    if l == [] then [] else [Elem([], PyTree(l[0]), [])] + PyElemsOf(l[1..])
  }

  function PyMembersOf(d: Dict): (ms: seq<Member>)
    ensures |ms| == |d|
  {
    if d == [] then []
    else [PyMember(d[0])] + PyMembersOf(d[1..])
  }

  function PyMember(e: Entry): Member { Member([], PyItems(e.key), [], Elem([], PyTree(e.val), [])) }

  /** `json.dumps(v, separators=(",", ":")).encode("utf-8")`. */
  function Dumps(v: PyVal): Bytes { Text(PyTree(v), []) }

  // ---- dicts ----

  lemma {:induction false} SetItemNew(d: Dict, key: Str, val: PyVal)
    requires !Has(d, key)
    ensures SetItem(d, key, val) == d + [Entry(key, val)]
  {
    if d != [] {
      assert d[0].key != key;
      assert !Has(d[1..], key) by {
        forall i | 0 <= i < |d[1..]| ensures d[1..][i].key != key { assert d[1..][i] == d[i + 1]; }
      }
      SetItemNew(d[1..], key, val);
      HeadTail(d);
    }
  }

  lemma {:induction false} SetItemSize(d: Dict, key: Str, val: PyVal)
    ensures |SetItem(d, key, val)| == |d| + (if Has(d, key) then 0 else 1)
  {
    if d != [] {
      assert Has(d, key) <==> d[0].key == key || Has(d[1..], key) by {
        if Has(d, key) {
          var i :| 0 <= i < |d| && d[i].key == key;
          if i > 0 { assert d[1..][i - 1] == d[i]; }
        }
        if Has(d[1..], key) {
          var i :| 0 <= i < |d[1..]| && d[1..][i].key == key;
          assert d[i + 1] == d[1..][i];
        }
      }
      SetItemSize(d[1..], key, val);
    }
  }

  lemma {:induction false} FromDistinct(ps: Dict)
    requires DistinctKeys(ps)
    ensures FromPairs(ps) == ps
  {
    if ps != [] {
      var n := |ps| - 1;
      FromDistinct(ps[..n]);
      assert !Has(ps[..n], ps[n].key);
      SetItemNew(ps[..n], ps[n].key, ps[n].val);
      assert ps == ps[..n] + [ps[n]];
    }
  }

  /** Nothing was overwritten iff nothing was lost. */
  lemma {:induction false} FromPairsSize(ps: Dict)
    ensures |FromPairs(ps)| <= |ps|
    ensures |FromPairs(ps)| == |ps| ==> FromPairs(ps) == ps && DistinctKeys(ps)
  {
    if ps != [] {
      var n := |ps| - 1;
      var d := FromPairs(ps[..n]);
      FromPairsSize(ps[..n]);
      SetItemSize(d, ps[n].key, ps[n].val);
      if |FromPairs(ps)| == |ps| {
        assert d == ps[..n] && !Has(d, ps[n].key);
        SetItemNew(d, ps[n].key, ps[n].val);
        assert ps == ps[..n] + [ps[n]];
        assert forall i, j | 0 <= i < j < |ps| :: ps[i].key != ps[j].key by {
          forall i, j | 0 <= i < j < |ps| ensures ps[i].key != ps[j].key {
            assert ps[i] == d[i];
            if j < n { assert ps[j] == d[j]; }
          }
        }
      }
    }
  }

  // ---- loads undoes dumps ----

  /** No floats, and distinct keys in every dict: what a real Python value guarantees. */
  predicate Real(v: PyVal) {
    match v
    case PFloat(_) => false
    case PList(l) => RealList(l)
    case PDict(d) => DistinctKeys(d) && RealEntries(d)
    case _ => true
  }

  predicate RealList(l: seq<PyVal>) { l == [] || (Real(l[0]) && RealList(l[1..])) }

  predicate RealEntries(d: Dict) { d == [] || (Real(d[0].val) && RealEntries(d[1..])) }

  /** Every string in a value, keys included. */
  function StrsOf(v: PyVal): set<Str> {
    match v
    case PStr(s) => {s}
    case PList(l) => StrsOfList(l)
    case PDict(d) => StrsOfDict(d)
    case _ => {}
  }

  function StrsOfList(l: seq<PyVal>): set<Str> {
    if l == [] then {} else StrsOf(l[0]) + StrsOfList(l[1..])
  }

  function StrsOfDict(d: Dict): set<Str> {
    if d == [] then {} else {d[0].key} + StrsOf(d[0].val) + StrsOfDict(d[1..])
  }

  predicate AllJoined(ss: set<Str>) { forall s <- ss :: NoPairs(s) }

  lemma {:induction false} PyValueBack(v: PyVal)
    requires Real(v)
    ensures PyValue(PyTree(v)) == v <==> AllJoined(StrsOf(v))
    decreases v, 0
  {
    hide PyStr, PyItems, FromPairs, IntVal, ShowInt, IsFractional, AllJoined;
    match v
    case PInt(n) =>
      ShowIntToken(n);
      NoneJoined();
    case PStr(s) => StringBack(s);
    case PList(l) => PyElemsBack(l);
    case PDict(d) =>
      PyPairsBack(d);
      DictBack(d);
    case _ => NoneJoined();
  }

  lemma NoneJoined()
    ensures AllJoined({})
  {
  }

  lemma StringBack(s: Str)
    ensures PyStr(PyItems(s)) == s <==> AllJoined({s})
  {
    PyStrBack(s);
    assert s in {s};
  }

  /** The dict read back is `d` only if nothing in it was overwritten. */
  lemma DictBack(d: Dict)
    requires DistinctKeys(d)
    ensures var ps := PyPairs(PyMembersOf(d)); FromPairs(ps) == d <==> ps == d
  {
    var ps := PyPairs(PyMembersOf(d));
    PyPairsCount(PyMembersOf(d));
    FromPairsSize(ps);
    if ps == d { FromDistinct(d); }
  }

  lemma {:induction false} PyPairsCount(ms: seq<Member>)
    ensures |PyPairs(ms)| == |ms|
  {
    if ms != [] { PyPairsCount(ms[1..]); }
  }

  lemma {:induction false} PyElemsBack(l: seq<PyVal>)
    requires RealList(l)
    ensures PyElems(PyElemsOf(l)) == l <==> AllJoined(StrsOfList(l))
    decreases l, 1
  {
    if l != [] {
      PyValueBack(l[0]);
      PyElemsBack(l[1..]);
      TailOfCons(Elem([], PyTree(l[0]), []), PyElemsOf(l[1..]));
      SameCons(PyValue(PyTree(l[0])), PyElems(PyElemsOf(l[1..])), l);
    }
  }

  lemma {:induction false} PyPairsBack(d: Dict)
    requires RealEntries(d)
    ensures PyPairs(PyMembersOf(d)) == d <==> AllJoined(StrsOfDict(d))
    decreases d, 1
  {
    if d != [] {
      PyStrBack(d[0].key);
      PyValueBack(d[0].val);
      PyPairsBack(d[1..]);
      TailOfCons(PyMember(d[0]), PyMembersOf(d[1..]));
      SameCons(Entry(PyStr(PyItems(d[0].key)), PyValue(PyTree(d[0].val))), PyPairs(PyMembersOf(d[1..])), d);
    }
  }

  // ---- when a text is UTF-8 ----

  predicate CleanItems(items: seq<Item>) { IsUtf8(Body(items)) }

  lemma StringText(items: seq<Item>, k: Bytes)
    requires ItemsWf(items)
    ensures IsUtf8([QUOTE] + ItemsText(items, k)) <==> CleanItems(items) && IsUtf8(k)
  {
    BodyText(items, k);
    AsciiThen([QUOTE], ItemsText(items, k));
    CutAtAscii(Body(items), [QUOTE] + k);
    AsciiThen([QUOTE], k);
  }

  lemma AsciiConcat(a: Bytes, b: Bytes)
    requires Ascii(a) && Ascii(b)
    ensures Ascii(a + b)
  {
  }

  lemma TokenAscii(tok: Bytes)
    requires NumTok(tok)
    ensures Ascii(tok)
  {
    var n: Num :| n.Wf() && tok == n.Text([]);
    var c, sign := n.ExpText([]), if n.neg then [MINUS] else [];
    if n.exp.Some? {
      var x := n.exp.value;
      AsciiConcat(x.digits, []);
      AsciiConcat(x.sign, x.digits + []);
      AsciiConcat([x.e], x.sign + (x.digits + []));
    }
    if n.frac.Some? {
      AsciiConcat(n.frac.value, c);
      AsciiConcat([DOT], n.frac.value + c);
    }
    AsciiConcat(n.whole, n.FracText(c));
    AsciiConcat(sign, n.whole + n.FracText(c));
  }

  lemma BlankAscii(w: Bytes)
    requires Blank(w)
    ensures Ascii(w)
  {
  }

  /** A text is UTF-8 iff each of its strings is, and whatever follows it. */
  lemma {:induction false} TextUtf8(t: Tree, k: Bytes, ok: Bytes -> bool)
    requires Wf(t, ok)
    ensures IsUtf8(Text(t, k)) <==> IsUtf8(k) && forall items <- Strings(t) :: CleanItems(items)
    decreases t, 0
  {
    hide CleanItems, IsUtf8;
    match t
    case TNull => AsciiThen(NULL_TEXT, k);
    case TBool(v) => AsciiThen(if v then TRUE_TEXT else FALSE_TEXT, k);
    case TNum(tok) =>
      TokenAscii(tok);
      AsciiThen(tok, k);
    case TStr(items) =>
      StringText(items, k);
      assert items in Strings(t);
    case TArr(pad, es) =>
      if es == [] {
        BlankAscii(pad);
        AsciiThen([RBRACKET], k);
        AsciiThen(pad, [RBRACKET] + k);
        AsciiThen([LBRACKET], pad + ([RBRACKET] + k));
      } else {
        ElemsUtf8(es, k, ok);
        AsciiThen([LBRACKET], ElemsText(es, k));
      }
    case TObj(pad, ms) =>
      if ms == [] {
        BlankAscii(pad);
        AsciiThen([RBRACE], k);
        AsciiThen(pad, [RBRACE] + k);
        AsciiThen([LBRACE], pad + ([RBRACE] + k));
      } else {
        MembersUtf8(ms, k, ok);
        AsciiThen([LBRACE], MembersText(ms, k));
      }
  }

  lemma {:induction false} ElemsUtf8(es: seq<Elem>, k: Bytes, ok: Bytes -> bool)
    requires es != [] && ElemsWf(es, ok)
    ensures IsUtf8(ElemsText(es, k)) <==> IsUtf8(k) && forall items <- ElemStrings(es) :: CleanItems(items)
    decreases es, 1
  {
    hide CleanItems, IsUtf8;
    var e := es[0];
    var q := if |es| == 1 then [RBRACKET] + k else [COMMA] + ElemsText(es[1..], k);
    if |es| == 1 {
      AsciiThen([RBRACKET], k);
    } else {
      ElemsUtf8(es[1..], k, ok);
      AsciiThen([COMMA], ElemsText(es[1..], k));
    }
    BlankAscii(e.pre);
    BlankAscii(e.post);
    AsciiThen(e.post, q);
    TextUtf8(e.t, e.post + q, ok);
    AsciiThen(e.pre, Text(e.t, e.post + q));
  }

  lemma {:induction false} MembersUtf8(ms: seq<Member>, k: Bytes, ok: Bytes -> bool)
    requires ms != [] && MembersWf(ms, ok)
    ensures IsUtf8(MembersText(ms, k)) <==> IsUtf8(k) && forall items <- MemberStrings(ms) :: CleanItems(items)
    decreases ms, 1
  {
    hide CleanItems, IsUtf8;
    var m := ms[0];
    var e := m.val;
    var q := if |ms| == 1 then [RBRACE] + k else [COMMA] + MembersText(ms[1..], k);
    if |ms| == 1 {
      AsciiThen([RBRACE], k);
    } else {
      MembersUtf8(ms[1..], k, ok);
      AsciiThen([COMMA], MembersText(ms[1..], k));
    }
    BlankAscii(e.pre);
    BlankAscii(e.post);
    AsciiThen(e.post, q);
    TextUtf8(e.t, e.post + q, ok);
    AsciiThen(e.pre, Text(e.t, e.post + q));
    var b := [COLON] + (e.pre + Text(e.t, e.post + q));
    AsciiThen([COLON], e.pre + Text(e.t, e.post + q));
    BlankAscii(m.mid);
    AsciiThen(m.mid, b);
    StringText(m.key, m.mid + b);
    BlankAscii(m.pre);
    AsciiThen(m.pre, [QUOTE] + ItemsText(m.key, m.mid + b));
    assert m.key in MemberStrings(ms);
  }

  /** `Loads` of a tree's own text. */
  lemma LoadsText(t: Tree)
    requires Wf(t, AnyNumber())
    requires forall items <- Strings(t) :: CleanItems(items) && NoControls(items)
    ensures Loads(Text(t, [])) == Some(PyValue(t))
  {
    PlainText(t, AnyNumber());
    TextUtf8(t, [], AnyNumber());
  }

  // ---- dumps writes texts ----

  lemma PyItemsClean(cs: Str)
    ensures Ascii(Body(PyItems(cs))) && CleanItems(PyItems(cs)) && NoControls(PyItems(cs)) && ItemsWf(PyItems(cs))
  {
    PyItemsBack(cs);
    BodyAscii(cs);
    AsciiDecode(Body(PyItems(cs)), true);
  }

  lemma {:induction false} BodyAscii(cs: Str)
    ensures Ascii(Body(PyItems(cs)))
  {
    if cs != [] {
      var us := UnitsOf(cs[0]);
      BodyAscii(cs[1..]);
      PyItemBack(us[0]);
      if cs[0] < 0x10000 {
        TailOfCons(PyItem(us[0]), PyItems(cs[1..]));
      } else {
        PyItemBack(us[1]);
        hide PyItem;
        BodyTwo(PyItem(us[0]), PyItem(us[1]), PyItems(cs[1..]));
      }
    }
  }

  lemma BodyTwo(a: Item, b: Item, items: seq<Item>)
    ensures Body([a, b] + items) == a.Text() + (b.Text() + Body(items))
  {
    assert ([a, b] + items)[1..] == [b] + items;
    TailOfCons(b, items);
  }

  lemma {:induction false} PyTreeOk(v: PyVal)
    requires Real(v)
    ensures Wf(PyTree(v), AnyNumber())
    ensures forall items <- Strings(PyTree(v)) :: CleanItems(items) && NoControls(items)
    decreases v, 0
  {
    match v
    case PInt(n) => ShowIntToken(n);
    case PStr(s) => PyItemsClean(s);
    case PList(l) => PyElemsOk(l);
    case PDict(d) => PyMembersOk(d);
    case _ =>
  }

  lemma {:induction false} PyElemsOk(l: seq<PyVal>)
    requires RealList(l)
    ensures ElemsWf(PyElemsOf(l), AnyNumber())
    ensures forall items <- ElemStrings(PyElemsOf(l)) :: CleanItems(items) && NoControls(items)
    decreases l, 1
  {
    if l != [] {
      PyTreeOk(l[0]);
      PyElemsOk(l[1..]);
      TailOfCons(Elem([], PyTree(l[0]), []), PyElemsOf(l[1..]));
    }
  }

  lemma {:induction false} PyMembersOk(d: Dict)
    requires RealEntries(d)
    ensures MembersWf(PyMembersOf(d), AnyNumber())
    ensures forall items <- MemberStrings(PyMembersOf(d)) :: CleanItems(items) && NoControls(items)
    decreases d, 1
  {
    if d != [] {
      PyItemsClean(d[0].key);
      PyTreeOk(d[0].val);
      PyMembersOk(d[1..]);
      TailOfCons(PyMember(d[0]), PyMembersOf(d[1..]));
    }
  }

  /** `loads(dumps(v)) == v` exactly when no string of `v` has a high surrogate directly
      before a low one: `loads` would join those two into one code point. */
  lemma LoadsDumps(v: PyVal)
    requires Real(v)
    ensures Loads(Dumps(v)) == Some(PyValue(PyTree(v)))
    ensures Loads(Dumps(v)) == Some(v) <==> AllJoined(StrsOf(v))
  {
    PyTreeOk(v);
    LoadsText(PyTree(v));
    PyValueBack(v);
  }

  /** On a datagram that is UTF-8, every string Python reads has a decoding. */
  lemma StringsDecode(data: Bytes, t: Tree, items: seq<Item>)
    requires IsUtf8(data) && PText(data, AnyNumber()) == Ok(t, []) && items in Strings(t)
    ensures Decode(ItemsValue(items), false).Some?
  {
    AcceptsIffDerives(data, t, AnyNumber());
    var w1, w2 :| Blank(w1) && Blank(w2) && data == w1 + Text(t, w2);
    BlankAscii(w1);
    AsciiThen(w1, Text(t, w2));
    TextUtf8(t, w2, AnyNumber());
    StringsWf(t, AnyNumber());
    BodyDecodes(items);
  }

  lemma {:induction false} StringsWf(t: Tree, ok: Bytes -> bool)
    requires Wf(t, ok)
    ensures forall items <- Strings(t) :: ItemsWf(items)
    decreases t, 0
  {
    match t
    case TArr(_, es) => ElemStringsWf(es, ok);
    case TObj(_, ms) => MemberStringsWf(ms, ok);
    case _ =>
  }

  lemma {:induction false} ElemStringsWf(es: seq<Elem>, ok: Bytes -> bool)
    requires ElemsWf(es, ok)
    ensures forall items <- ElemStrings(es) :: ItemsWf(items)
    decreases es, 1
  {
    if es != [] {
      StringsWf(es[0].t, ok);
      ElemStringsWf(es[1..], ok);
    }
  }

  lemma {:induction false} MemberStringsWf(ms: seq<Member>, ok: Bytes -> bool)
    requires MembersWf(ms, ok)
    ensures forall items <- MemberStrings(ms) :: ItemsWf(items)
    decreases ms, 1
  {
    if ms != [] {
      StringsWf(ms[0].val.t, ok);
      MemberStringsWf(ms[1..], ok);
    }
  }
}
