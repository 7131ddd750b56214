/** Every ANNOUNCE the C++ responder prints, read by the Python `decode`. */
module CppAnnounce {
  import opened Bytes
  import opened Grammar
  import opened CppJson
  import opened CppMessages
  import opened CppToPython
  import opened DescentProofs
  import Descent
  import opened RoundTrip
  import opened PyText
  import opened PyJson
  import opened Protocol
  import opened ProtocolProofs
  import opened Utf8

  // ---- a printed value is UTF-8 iff its strings are ----

  predicate AllUtf8(v: Json) {
    match v
    case Str(s) => IsUtf8(s)
    case Arr(a) => AllUtf8Seq(a)
    case Obj(o) => AllUtf8Fields(o)
    case _ => true
  }

  predicate AllUtf8Seq(a: seq<Json>) { a == [] || (AllUtf8(a[0]) && AllUtf8Seq(a[1..])) }

  predicate AllUtf8Fields(o: seq<Field>) {
    o == [] || (IsUtf8(o[0].key) && AllUtf8(o[0].val) && AllUtf8Fields(o[1..]))
  }

  lemma {:induction false} ItemsOfDrop(s: Bytes, n: nat)
    requires n <= |s|
    ensures |ItemsOf(s)| == |s| && ItemsOf(s)[n..] == ItemsOf(s[n..])
  {
    if s != [] {
      ItemsOfDrop(s[1..], if n > 0 then n - 1 else 0);
      if n > 0 { assert s[1..][n - 1..] == s[n..]; } else { assert s[0..] == s; }
    }
  }

  /** Escaping neither makes nor hides a UTF-8 error. */
  lemma CleanIff(s: Bytes)
    ensures CleanItems(ItemsOf(s)) <==> IsUtf8(s)
  {
    if IsUtf8(s) { StringRead(s); }
    if CleanItems(ItemsOf(s)) { CleanBack(s); }
  }

  lemma {:induction false} CleanBack(s: Bytes)
    requires CleanItems(ItemsOf(s))
    ensures IsUtf8(s)
    decreases |s|
  {
    hide IsUtf8, ItemOf;
    if s == [] {
      assert IsUtf8([]) by { Utf8IffNoSurrogates([]); }
    } else if s[0] >= 0x80 {
      var n, c := CleanHigh(s);
      CleanBack(s[n..]);
      Utf8Step(c, s[n..]);
    } else {
      CleanLow(s);
      CleanBack(s[1..]);
      HeadTail(s);
      AsciiThen([s[0]], s[1..]);
    }
  }

  lemma Utf8Step(c: Code, t: Bytes)
    requires !IsSurrogate(c) && IsUtf8(t)
    ensures IsUtf8(EncodeOne(c) + t)
  {
    DecodeStep(c, t, true);
  }

  lemma CleanLow(s: Bytes)
    requires s != [] && s[0] < 0x80 && CleanItems(ItemsOf(s))
    ensures CleanItems(ItemsOf(s[1..]))
  {
    hide IsUtf8, ItemOf;
    PyText.AsciiItemOf(s[0]);
    TailOfCons(ItemOf(s[0]), ItemsOf(s[1..]));
    AsciiThen(ItemOf(s[0]).Text(), Body(ItemsOf(s[1..])));
  }

  /** A character of several bytes at the front of a string is printed as it stands. */
  lemma CleanHigh(s: Bytes) returns (n: nat, c: Code)
    requires s != [] && s[0] >= 0x80 && CleanItems(ItemsOf(s))
    ensures 1 <= n <= |s| && !IsSurrogate(c) && s == EncodeOne(c) + s[n..]
    ensures CleanItems(ItemsOf(s[n..]))
  {
    var items := ItemsOf(s);
    var b := Body(items);
    assert items[0] == Raw(s[0]);
    hide IsUtf8, ItemOf, DecodeOne, EncodeOne, Body, ItemsValue;
    n := HighCharacter(items);
    ItemsOfDrop(s, 0);
    ItemsOfDrop(s, n);
    ItemsOfString(s);
    ItemsOfString(s[n..]);
    assert ItemsValue(items) == s && ItemsValue(items[n..]) == s[n..];
    assert s == b[..n] + s[n..];
    c := OneCharacter(b, n);
  }

  lemma OneCharacter(b: Bytes, n: nat) returns (c: Code)
    requires n <= |b| && DecodeOne(b[..n] + b[n..], true).Some? && DecodeOne(b[..n] + b[n..], true).value.1 == n
    ensures !IsSurrogate(c) && EncodeOne(c) == b[..n]
  {
    hide DecodeOne, EncodeOne;
    assert b[..n] + b[n..] == b;
    EncodeDecodeOne(b, true);
    c := DecodeOne(b, true).value.0;
  }

  lemma {:induction false} AllUtf8Iff(v: Json, show: Show)
    ensures AllUtf8(v) <==> forall items <- Strings(TreeOf(v, show)) :: CleanItems(items)
    decreases v, 0
  {
    hide CleanItems, IsUtf8, ItemsOf;
    match v
    case Str(s) =>
      CleanIff(s);
      assert ItemsOf(s) in Strings(TreeOf(v, show));
    case Arr(a) => AllUtf8SeqIff(a, show);
    case Obj(o) => AllUtf8FieldsIff(o, show);
    case _ =>
  }

  lemma {:induction false} AllUtf8SeqIff(a: seq<Json>, show: Show)
    ensures AllUtf8Seq(a) <==> forall items <- ElemStrings(ElemsOf(a, show)) :: CleanItems(items)
    decreases a, 1
  {
    hide CleanItems, IsUtf8, ItemsOf;
    if a != [] {
      AllUtf8Iff(a[0], show);
      AllUtf8SeqIff(a[1..], show);
      TailOfCons(ElemsOf(a, show)[0], ElemsOf(a[1..], show));
    }
  }

  lemma {:induction false} AllUtf8FieldsIff(o: seq<Field>, show: Show)
    ensures AllUtf8Fields(o) <==> forall items <- MemberStrings(MembersOf(o, show)) :: CleanItems(items)
    decreases o, 1
  {
    hide CleanItems, IsUtf8, ItemsOf;
    if o != [] {
      CleanIff(o[0].key);
      AllUtf8Iff(o[0].val, show);
      AllUtf8FieldsIff(o[1..], show);
      TailOfCons(MembersOf(o, show)[0], MembersOf(o[1..], show));
      assert ItemsOf(o[0].key) in MemberStrings(MembersOf(o, show));
    }
  }

  /** The text printed for a double-free value is UTF-8 iff all its strings are. */
  lemma DumpUtf8Iff(v: Json, show: Show)
    requires Doubles(v) == {}
    ensures IsUtf8(Dump(v, show)) <==> AllUtf8(v)
  {
    TreeOfWf(v, show, AnyNumber());
    TextUtf8(TreeOf(v, show), [], AnyNumber());
    AllUtf8Iff(v, show);
  }

  // ---- announces ----

  /** `std::map` holds each key once. */
  predicate MapKeys(meta: seq<(Bytes, Bytes)>) { forall i, j | 0 <= i < j < |meta| :: meta[i].0 != meta[j].0 }

  predicate Utf8Meta(meta: seq<(Bytes, Bytes)>) { forall kv <- meta :: IsUtf8(kv.0) && IsUtf8(kv.1) }

  predicate Utf8Qid(qid: Option<Bytes>) { qid.Some? ==> IsUtf8(qid.value) }

  /** Everything a responder says about itself is UTF-8. */
  predicate Utf8Self(me: Self) {
    && IsUtf8(me.id) && IsUtf8(me.started) && IsUtf8(me.opt.name) && IsUtf8(me.opt.app) && IsUtf8(me.opt.host)
    && IsUtf8(me.opt.scheme) && IsUtf8(me.opt.version) && Utf8Meta(me.opt.meta)
  }

  /** The fields of an announce, as Python reads them. */
  function AboutOf(me: Self): About {
    About(Chars(me.id), Chars(me.opt.name), Chars(me.opt.app), Chars(me.opt.host), me.opt.port,
          Chars(me.opt.scheme), Chars(me.opt.version), me.pid, Chars(me.started))
  }

  function MetaDict(meta: seq<(Bytes, Bytes)>): (d: Dict)
    ensures |d| == |meta|
    ensures forall i | 0 <= i < |d| :: d[i] == Entry(Chars(meta[i].0), PStr(Chars(meta[i].1)))
  {
    if meta == [] then [] else [Entry(Chars(meta[0].0), PStr(Chars(meta[0].1)))] + MetaDict(meta[1..])
  }

  function QidChars(qid: Option<Bytes>): Option<Str> {
    if qid.Some? then Some(Chars(qid.value)) else None
  }

  /** The message with the same contents as what the C++ responder prints. */
  function AnnounceDictOf(me: Self, qid: Option<Bytes>): Dict {
    AnnounceOf(AboutOf(me), QidChars(qid), Some(MetaDict(me.opt.meta)))
  }

  // Properties of a field list, one field at a time.

  lemma {:induction false} FieldsEach(o: seq<Field>)
    ensures AllUtf8Fields(o) <==> forall f <- o :: IsUtf8(f.key) && AllUtf8(f.val)
    ensures PresentableFields(o) <==> forall f <- o :: IsUtf8(f.key) && Presentable(f.val)
    ensures DoublesOf(o) == {} <==> forall f <- o :: Doubles(f.val) == {}
    ensures forall i | 0 <= i < |o| :: PyOfFields(o)[i] == Entry(Chars(o[i].key), PyOf(o[i].val))
  {
    hide IsUtf8, AllUtf8, Presentable, Doubles, PyOf, Chars;
    if o != [] {
      FieldsEach(o[1..]);
      HeadTail(o);
      assert forall f <- o :: f == o[0] || f in o[1..];
      assert forall i | 1 <= i < |o| :: o[i] == o[1..][i - 1];
    }
  }

  lemma AsciiChars(s: Bytes)
    requires Ascii(s)
    ensures IsUtf8(s) && Chars(s) == s
  {
    AsciiDecode(s, true);
  }

  predicate ReadsAsItself(s: Bytes) { IsUtf8(s) && Chars(s) == s }

  lemma KeyChars()
    ensures ReadsAsItself(PROTO) && ReadsAsItself(DISCOVER) && ReadsAsItself(ANNOUNCE)
          && ReadsAsItself(K_PROTO) && ReadsAsItself(K_TYPE) && ReadsAsItself(K_QID)
          && ReadsAsItself(K_FILTER) && ReadsAsItself(K_ID) && ReadsAsItself(K_NAME) && ReadsAsItself(K_APP)
          && ReadsAsItself(K_HOST) && ReadsAsItself(K_PORT) && ReadsAsItself(K_SCHEME)
          && ReadsAsItself(K_VERSION) && ReadsAsItself(K_PID) && ReadsAsItself(K_STARTED)
          && ReadsAsItself(K_META)
  {
    Names();
    hide L;
    forall k: Bytes | Ascii(k) ensures ReadsAsItself(k) { AsciiChars(k); }
  }

  lemma {:induction false} MetaEach(meta: seq<(Bytes, Bytes)>)
    ensures AllUtf8(Obj(MetaFields(meta))) <==> Utf8Meta(meta)
    ensures Doubles(Obj(MetaFields(meta))) == {}
    ensures PyOf(Obj(MetaFields(meta))) == PDict(MetaDict(meta))
    ensures MapKeys(meta) && Utf8Meta(meta) ==> Presentable(Obj(MetaFields(meta)))
  {
    var o := MetaFields(meta);
    hide IsUtf8, Chars, MetaFields, MetaDict;
    FieldsEach(o);
    assert forall kv <- meta :: exists i :: 0 <= i < |meta| && kv == meta[i];
    assert PyOfFields(o) == MetaDict(meta);
  }

  lemma {:induction false} FieldsConcat(a: seq<Field>, b: seq<Field>)
    ensures AllUtf8Fields(a + b) <==> AllUtf8Fields(a) && AllUtf8Fields(b)
    ensures PresentableFields(a + b) <==> PresentableFields(a) && PresentableFields(b)
    ensures DoublesOf(a + b) == DoublesOf(a) + DoublesOf(b)
    ensures PyOfFields(a + b) == PyOfFields(a) + PyOfFields(b)
  {
    hide IsUtf8, AllUtf8, Presentable, Doubles, PyOf, Chars;
    if a == [] {
      assert a + b == b;
    } else {
      assert (a + b)[1..] == a[1..] + b;
      FieldsConcat(a[1..], b);
    }
  }

  lemma Pointwise(o: seq<Field>, d: Dict)
    requires |o| == |d| && forall i | 0 <= i < |o| :: d[i] == Entry(Chars(o[i].key), PyOf(o[i].val))
    ensures PyOfFields(o) == d
  {
    FieldsEach(o);
  }

  lemma HeadPy(me: Self)
    ensures PyOfFields(HeadFieldsOf(me)) == Head(AboutOf(me))
  {
    KeyChars();
    var o, d := HeadFieldsOf(me), Head(AboutOf(me));
    hide IsUtf8, L, Chars;
    assert forall i | 0 <= i < 11 :: d[i] == Entry(Chars(o[i].key), PyOf(o[i].val));
    Pointwise(o, d);
  }

  /** Strings and integers under UTF-8 keys. */
  lemma ScalarFields(o: seq<Field>)
    requires forall i | 0 <= i < |o| :: IsUtf8(o[i].key) && (o[i].val.Str? || o[i].val.Int?)
    ensures AllUtf8Fields(o) <==> forall i | 0 <= i < |o| :: o[i].val.Str? ==> IsUtf8(o[i].val.s)
    ensures DoublesOf(o) == {} && (AllUtf8Fields(o) ==> PresentableFields(o))
  {
    FieldsEach(o);
    assert forall i | 0 <= i < |o| :: o[i] in o;
    hide AllUtf8Fields, PresentableFields, DoublesOf, IsUtf8;
  }

  lemma HeadShape(me: Self)
    ensures var o := HeadFieldsOf(me);
      && |o| == 11 && (forall i | 0 <= i < |o| :: IsUtf8(o[i].key) && (o[i].val.Str? || o[i].val.Int?))
      && o[0].val == Str(PROTO) && o[1].val == Str(ANNOUNCE) && o[2].val == Str(me.id) && o[3].val == Str(me.opt.name)
      && o[4].val == Str(me.opt.app) && o[5].val == Str(me.opt.host) && o[6].val.Int? && o[7].val == Str(me.opt.scheme)
      && o[8].val == Str(me.opt.version) && o[9].val.Int? && o[10].val == Str(me.started)
  {
    KeyChars();
    hide IsUtf8, L, Chars;
  }

  lemma HeadUtf8(me: Self)
    ensures var o := HeadFieldsOf(me);
      && (AllUtf8Fields(o) <==> Utf8Self(me.(opt := me.opt.(meta := []))))
      && DoublesOf(o) == {} && (AllUtf8Fields(o) ==> PresentableFields(o))
  {
    HeadShape(me);
    KeyChars();
    hide IsUtf8, L, Chars, AllUtf8Fields, PresentableFields, DoublesOf, HeadFieldsOf;
    ScalarFields(HeadFieldsOf(me));
  }

  lemma TailEach(qid: Option<Bytes>, meta: seq<(Bytes, Bytes)>)
    ensures var t := QidField(qid) + MetaField(meta);
      && (AllUtf8Fields(t) <==> Utf8Qid(qid) && Utf8Meta(meta))
      && DoublesOf(t) == {}
      && (AllUtf8Fields(t) && MapKeys(meta) ==> PresentableFields(t))
      && PyOfFields(t) == QidPart(QidChars(qid)) + MetaPart(Some(MetaDict(meta)))
  {
    KeyChars();
    hide IsUtf8, L, Chars, Presentable, AllUtf8, Doubles, PyOf;
    var q, m := QidField(qid), MetaField(meta);
    if qid.Some? {
      OneField(q[0]);
      StrField(qid.value);
    }
    if meta != [] { OneField(m[0]); }
    FieldsConcat(q, m);
    MetaEach(meta);
  }

  lemma OneField(f: Field)
    ensures AllUtf8Fields([f]) <==> IsUtf8(f.key) && AllUtf8(f.val)
    ensures PresentableFields([f]) <==> IsUtf8(f.key) && Presentable(f.val)
    ensures DoublesOf([f]) == Doubles(f.val) && PyOfFields([f]) == [Entry(Chars(f.key), PyOf(f.val))]
  {
    assert AllUtf8Fields([f][1..]) && PresentableFields([f][1..]) && DoublesOf([f][1..]) == {};
    assert PyOfFields([f][1..]) == [];
  }

  lemma StrField(s: Bytes)
    ensures AllUtf8(Str(s)) == Presentable(Str(s)) == IsUtf8(s)
    ensures Doubles(Str(s)) == {} && PyOf(Str(s)) == PStr(Chars(s))
  {
  }

  lemma AnnounceEach(me: Self, qid: Option<Bytes>)
    ensures var v := AnnounceObject(me, qid);
      && (AllUtf8(v) <==> Utf8Self(me) && Utf8Qid(qid))
      && Doubles(v) == {} && PyOf(v) == PDict(AnnounceDictOf(me, qid))
      && (AllUtf8(v) && MapKeys(me.opt.meta) ==> Presentable(v))
  {
    var head, q, m := HeadFieldsOf(me), QidField(qid), MetaField(me.opt.meta);
    HeadUtf8(me);
    HeadPy(me);
    TailEach(qid, me.opt.meta);
    AnnounceDict(AboutOf(me), QidChars(qid), Some(MetaDict(me.opt.meta)));
    hide IsUtf8, L, Chars, HeadFieldsOf, Head, AllUtf8Fields, PresentableFields, DoublesOf, PyOfFields, MetaDict,
         QidField, MetaField, QidPart, MetaPart, AboutOf, HeadFieldsOf;
    FieldsConcat(head, q + m);
    Assoc(head, q, m);
    Assoc(Head(AboutOf(me)), QidPart(QidChars(qid)), MetaPart(Some(MetaDict(me.opt.meta))));
    DistinctBack(head + q + m);
  }

  lemma DistinctBack(o: seq<Field>)
    ensures DistinctKeys(PyOfFields(o)) ==> DistinctFields(o)
  {
  }

  /** The Python `decode` accepts an ANNOUNCE the C++ responder sends iff it fits a datagram and
      everything in it is UTF-8, and then reads exactly the fields the responder has. */
  lemma PythonDecodesAnnounce(me: Self, qid: Option<Bytes>, show: Show)
    requires MapKeys(me.opt.meta)
    ensures var text := AnnounceText(me, qid, show);
      && (Decoded(text).Some? <==> |text| <= MAX_DATAGRAM && Utf8Self(me) && Utf8Qid(qid))
      && (Decoded(text).Some? ==> Decoded(text) == Some(AnnounceDictOf(me, qid)))
  {
    hide AnnounceObject, AnnounceOf, AboutOf, QidChars, MetaDict, Utf8Self, Utf8Qid, IsUtf8, Dump, ValidMessage,
         Presentable, PyOf, AllUtf8, Doubles, L;
    var v, text := AnnounceObject(me, qid), AnnounceText(me, qid, show);
    AnnounceEach(me, qid);
    DumpUtf8Iff(v, show);
    AnnounceValid(AboutOf(me), QidChars(qid), Some(MetaDict(me.opt.meta)));
    if AllUtf8(v) { PythonReadsCpp(v, show); }
  }

  /** The same service as the Python responder's keyword arguments give it. */
  function ServiceOf(o: Options): Service {
    Service(Chars(o.name), Chars(o.app), o.port, Some(Chars(o.scheme)), Some(Chars(o.version)),
            Some(MetaDict(o.meta)), Some(Chars(o.host)))
  }

  lemma SameDefault(x: Bytes, y: Bytes)
    requires IsUtf8(x)
    ensures Or(Some(Chars(x)), Chars(y)) == Chars(if x == [] then y else x)
    ensures Chars(x) == [] <==> x == []
  {
    CharsBack(x);
  }

  /** The two implementations announce the same service with the same message, defaults and
      all, iff its version is not empty: Python then says "0", C++ says "". */
  lemma SameAnnounce(o: Options, fqdn: Bytes, me: Self, qid: Option<Bytes>)
    requires me.opt == Completed(o, fqdn) && Utf8Self(me)
    ensures var p := Process(me.pid, Chars(fqdn), Chars(me.started));
      var py := Protocol.BuildAnnounce(ServiceOf(o), Chars(me.id), QidChars(qid), None, p);
      AnnounceDictOf(me, qid) == py <==> o.version != []
  {
    var p := Process(me.pid, Chars(fqdn), Chars(me.started));
    var a, b := AboutOf(me), AboutService(ServiceOf(o), Chars(me.id), None, p);
    AsciiChars([]);
    assert IsUtf8(o.scheme) && IsUtf8(o.host);
    SameDefault(o.scheme, o.app);
    SameDefault(o.host, fqdn);
    SameDefault(o.version, []);
    assert a == b <==> o.version != [] by { assert |L("0")| == 1; }
    hide AboutOf, AboutService, IsUtf8, Chars, L;
    assert a.(version := b.version) == b;
    VersionShows(a, b.version, QidChars(qid), Some(MetaDict(me.opt.meta)));
  }

  lemma VersionShows(a: About, version: Str, qid: Option<Str>, meta: Option<Dict>)
    ensures AnnounceOf(a, qid, meta) == AnnounceOf(a.(version := version), qid, meta) <==> version == a.version
  {
    hide L, QidPart, MetaPart;
    var b := a.(version := version);
    assert AnnounceOf(a, qid, meta)[8] == Head(a)[8] == Entry(K_VERSION, PStr(a.version));
    assert AnnounceOf(b, qid, meta)[8] == Head(b)[8] == Entry(K_VERSION, PStr(version));
  }
}
