/** The queries the Python client sends, at a C++ and at a Python responder. */
module ClientQueries {
  import opened Bytes
  import opened Grammar
  import opened Descent
  import opened DescentProofs
  import opened CppJson
  import opened CppMessages
  import opened CppToPython
  import opened RoundTrip
  import opened PyText
  import opened PyJson
  import opened Protocol
  import opened ProtocolProofs
  import opened Agreement
  import opened Utf8
  import MessageSize

  predicate InBmp(s: Str) { forall i | 0 <= i < |s| :: s[i] < 0x10000 }

  lemma {:induction false} UnitsSame(s: Str)
    ensures |Units(s)| >= |s|
    ensures InBmp(s) ==> Units(s) == s
    ensures !InBmp(s) ==> |Units(s)| > |s|
  {
    if s != [] {
      UnitsSame(s[1..]);
      assert InBmp(s) <==> s[0] < 0x10000 && InBmp(s[1..]) by {
        assert forall i | 0 <= i < |s[1..]| :: s[1..][i] == s[i + 1];
      }
      HeadTail(s);
    }
  }

  lemma EncodeInjective(a: Str, b: Str)
    requires Encode(a) == Encode(b)
    ensures a == b
  {
    DecodeEncode(a);
    DecodeEncode(b);
  }

  /** What C++ reads of a string Python printed is its UTF-8 iff it has no character beyond
      U+FFFF: `json.dumps` writes such a character as two escapes, and the parser encodes
      each on its own. */
  lemma CppReadsString(s: Str)
    ensures ItemsValue(PyItems(s)) == Encode(s) <==> InBmp(s)
  {
    PyItemsBack(s);
    UnitsSame(s);
    if Encode(Units(s)) == Encode(s) { EncodeInjective(Units(s), s); }
  }

  /** A string both languages read alike wherever Python printed it. */
  predicate Simple(s: Str) { InBmp(s) && NoPairs(s) && NoNul(s) }

  lemma SimpleItems(s: Str)
    requires Simple(s)
    ensures Unpaired(PyItems(s)) && NoNul(ItemsValue(PyItems(s))) && ItemsValue(PyItems(s)) == Encode(s)
  {
    PyItemsBack(s);
    UnitsSame(s);
    DecodeEncode(s);
    EncodeNoNul(s);
  }

  lemma AsciiSimple(k: Bytes)
    requires Ascii(k)
    ensures InBmp(k) && NoPairs(k) && ItemsValue(PyItems(k)) == k
  {
    CppReadsString(k);
    AsciiEncode(k);
  }

  lemma {:induction false} FindPrinted(d: Dict, k: Bytes)
    requires Ascii(k) && forall e <- d :: InBmp(e.key)
    ensures FindMember(PyMembersOf(d), k) ==
            match Get(d, k) case None => None case Some(v) => Some(PyTree(v))
  {
    if d != [] {
      CppReadsString(d[0].key);
      AsciiEncode(k);
      if ItemsValue(PyItems(d[0].key)) == k { EncodeInjective(d[0].key, k); }
      hide PyItems, PyTree, Encode, ItemsValue;
      FindPrinted(d[1..], k);
      TailOfCons(PyMember(d[0]), PyMembersOf(d[1..]));
    }
  }

  // ---- a query's derivation ----

  predicate SimpleFilter(filter: Option<Dict>) {
    filter.Some? ==> DistinctKeys(filter.value) && forall e <- filter.value :: e.val.PStr? && Simple(e.val.s)
  }

  /** The same, but possibly with characters beyond U+FFFF. */
  predicate UnsplitFilter(filter: Option<Dict>) {
    filter.Some? ==> DistinctKeys(filter.value) && forall e <- filter.value :: e.val.PStr? && NoPairs(e.val.s)
  }

  /** A dict of strings, or of such dicts, has a derivation for every `stod`. */
  lemma {:induction false} StringDictWf(d: Dict, ok: Bytes -> bool)
    requires forall e <- d :: Wf(PyTree(e.val), ok)
    ensures Wf(PyTree(PDict(d)), ok)
  {
    if d != [] {
      StringDictWf(d[1..], ok);
      PyItemsClean(d[0].key);
      TailOfCons(PyMember(d[0]), PyMembersOf(d[1..]));
    }
  }

  lemma StringWf(v: PyVal, ok: Bytes -> bool)
    requires v.PStr?
    ensures Wf(PyTree(v), ok)
  {
    PyItemsClean(v.s);
  }

  lemma FilterWf(d: Dict, ok: Bytes -> bool)
    requires forall e <- d :: e.val.PStr?
    ensures Wf(PyTree(PDict(d)), ok)
  {
    forall e <- d ensures Wf(PyTree(e.val), ok) { StringWf(e.val, ok); }
    StringDictWf(d, ok);
  }

  lemma QueryWf(filter: Option<Dict>, qid: Option<Str>, uuid: Str, ok: Bytes -> bool)
    requires BuildQuery(filter, qid, uuid).Some?
    ensures Wf(PyTree(PDict(BuildQuery(filter, qid, uuid).value)), ok)
  {
    var msg := BuildQuery(filter, qid, uuid).value;
    QueryFields(filter, qid, uuid);
    hide Get, L, BuildQuery, Wf, PyTree, ValidFilter;
    assert filter.Some? ==> filter.value == [] || forall e <- filter.value :: e.val.PStr?;
    forall e <- msg ensures Wf(PyTree(e.val), ok) {
      if e.val.PStr? { StringWf(e.val, ok); } else { FilterWf(filter.value, ok); }
    }
    StringDictWf(msg, ok);
  }

  predicate PlainKey(k: Str) { InBmp(k) && NoPairs(k) }

  lemma PlainKeys()
    ensures PlainKey(K_PROTO) && PlainKey(K_TYPE) && PlainKey(K_QID) && PlainKey(K_FILTER) && PlainKey(K_ID)
         && PlainKey(K_NAME) && PlainKey(K_APP) && PlainKey(K_HOST) && PlainKey(K_PORT) && PlainKey(K_SCHEME)
         && PlainKey(K_VERSION) && PlainKey(K_PID) && PlainKey(K_STARTED) && PlainKey(K_META)
         && PlainKey(PROTO) && PlainKey(DISCOVER)
  {
    Names();
    hide L;
    forall k: Bytes | Ascii(k) ensures PlainKey(k) { AsciiSimple(k); }
  }

  lemma {:induction false} JoinedEach(d: Dict)
    requires forall e <- d :: NoPairs(e.key) && AllJoined(StrsOf(e.val))
    ensures AllJoined(StrsOfDict(d))
  {
    if d != [] { JoinedEach(d[1..]); }
  }

  lemma {:induction false} PrintedMembers(d: Dict)
    ensures |PyMembersOf(d)| == |d| && forall i | 0 <= i < |d| :: PyMembersOf(d)[i] == PyMember(d[i])
  {
    hide PyMember;
    if d != [] { PrintedMembers(d[1..]); }
  }

  lemma FilterJoined(f: Dict)
    requires UnsplitFilter(Some(f)) && ValidFilter(PDict(f))
    ensures AllJoined(StrsOf(PDict(f))) && Real(PDict(f)) && forall e <- f :: InBmp(e.key)
  {
    PlainKeys();
    hide L, PlainKey, AllJoined;
    forall e | e in f ensures InBmp(e.key) && NoPairs(e.key) && AllJoined(StrsOf(e.val)) && Real(e.val) {
      NoPairsOf(e.key);
      OneJoined(e.val.s);
    }
    JoinedEach(f);
    RealEach(f);
  }

  lemma OneJoined(s: Str)
    requires NoPairs(s)
    ensures AllJoined(StrsOf(PStr(s)))
  {
  }

  /** A filter of simple patterns is read back unchanged, and alike. */
  lemma FilterTreeOk(f: Dict)
    requires SimpleFilter(Some(f)) && ValidFilter(PDict(f))
    ensures PyPairs(PyMembersOf(f)) == f && PatternsOk(PyMembersOf(f))
  {
    FilterJoined(f);
    PyPairsBack(f);
    PatternItems(f);
  }

  lemma PrintedString(e: Entry)
    requires e.val.PStr?
    ensures PyMember(e).val.t == TStr(PyItems(e.val.s))
  {
  }

  lemma PatternItems(f: Dict)
    requires forall e <- f :: e.val.PStr? && Simple(e.val.s)
    ensures PatternsOk(PyMembersOf(f))
  {
    PrintedMembers(f);
    hide Unpaired, NoNul, Simple, ItemsValue, PyItems;
    forall m | m in PyMembersOf(f) && m.val.t.TStr?
      ensures Unpaired(m.val.t.items) && NoNul(ItemsValue(m.val.t.items))
    {
      var i :| 0 <= i < |f| && m == PyMember(f[i]);
      assert f[i] in f;
      PrintedString(f[i]);
      SimpleItems(f[i].val.s);
    }
  }

  lemma NoPairsOf(k: Str)
    ensures PlainKey(k) ==> NoPairs(k) && InBmp(k)
  {
  }

  lemma QueryKeys(filter: Option<Dict>, qid: Option<Str>, uuid: Str)
    requires BuildQuery(filter, qid, uuid).Some?
    ensures forall e <- BuildQuery(filter, qid, uuid).value :: PlainKey(e.key)
    ensures forall e <- BuildQuery(filter, qid, uuid).value :: e.val.PStr? ==>
              PlainKey(e.val.s) || e.val == PStr(Or(qid, uuid))
  {
    PlainKeys();
    hide L, PlainKey, ValidFilter, Or;
  }

  lemma QueryJoined(filter: Option<Dict>, qid: Option<Str>, uuid: Str)
    requires BuildQuery(filter, qid, uuid).Some? && UnsplitFilter(filter) && NoPairs(Or(qid, uuid))
    ensures var msg := BuildQuery(filter, qid, uuid).value;
      AllJoined(StrsOf(PDict(msg))) && Real(PDict(msg)) && forall e <- msg :: InBmp(e.key)
  {
    var msg := BuildQuery(filter, qid, uuid).value;
    QueryFields(filter, qid, uuid);
    QueryKeys(filter, qid, uuid);
    if filter.Some? && filter.value != [] { FilterJoined(filter.value); }
    hide Get, L, BuildQuery, AllJoined, StrsOf, PlainKey, UnsplitFilter, DistinctKeys, ValidFilter;
    forall e | e in msg ensures InBmp(e.key) && NoPairs(e.key) && AllJoined(StrsOf(e.val)) && Real(e.val) {
      NoPairsOf(e.key);
      if e.val.PStr? {
        NoPairsOf(e.val.s);
        OneJoined(e.val.s);
      }
    }
    JoinedDict(msg);
  }

  lemma JoinedDict(d: Dict)
    requires DistinctKeys(d) && forall e <- d :: NoPairs(e.key) && AllJoined(StrsOf(e.val)) && Real(e.val)
    ensures AllJoined(StrsOf(PDict(d))) && Real(PDict(d))
  {
    JoinedEach(d);
    RealEach(d);
  }

  /** A printed dictionary whose id and filter both languages read alike. */
  lemma PrintedComparable(msg: Dict, q: Str, f: Option<Dict>)
    requires DistinctKeys(msg) && PyPairs(PyMembersOf(msg)) == msg && forall e <- msg :: InBmp(e.key)
    requires Get(msg, K_QID) == Some(PStr(q)) && Unpaired(PyItems(q))
    requires Get(msg, K_FILTER) == if f.Some? then Some(PDict(f.value)) else None
    requires f.Some? ==>
               PyPairs(PyMembersOf(f.value)) == f.value && DistinctKeys(f.value) && PatternsOk(PyMembersOf(f.value))
    ensures Comparable(PyTree(PDict(msg)))
  {
    Names();
    hide Get, L, PatternsOk, Unpaired, DistinctKeys, InBmp;
    FindPrinted(msg, K_QID);
    FindPrinted(msg, K_FILTER);
  }

  /** A query of simple strings is a message both languages read alike. */
  lemma QueryComparable(filter: Option<Dict>, qid: Option<Str>, uuid: Str)
    requires BuildQuery(filter, qid, uuid).Some? && SimpleFilter(filter) && Simple(Or(qid, uuid))
    ensures Comparable(PyTree(PDict(BuildQuery(filter, qid, uuid).value)))
  {
    var msg, f := BuildQuery(filter, qid, uuid).value, if filter == Some([]) then None else filter;
    QueryFields(filter, qid, uuid);
    QueryJoined(filter, qid, uuid);
    if f.Some? { FilterTreeOk(f.value); }
    SimpleItems(Or(qid, uuid));
    hide Get, L, BuildQuery, PatternsOk, Unpaired, DistinctKeys, NoPairs, InBmp, AllJoined, StrsOf, Or,
         SimpleFilter, Simple, Comparable, PyTree;
    PyPairsBack(msg);
    PrintedComparable(msg, Or(qid, uuid), f);
  }

  /** Every query the Python client builds from simple strings that fits a datagram gets the
      same answer from a C++ and a Python responder for the same application. */
  lemma QueryAnsweredAlike(filter: Option<Dict>, qid: Option<Str>, uuid: Str, own: Dict, o: Options,
                           lib: Lib, stod: Stod, glob: Glob)
    requires BuildQuery(filter, qid, uuid).Some? && SimpleFilter(filter) && Simple(Or(qid, uuid))
    requires Encoded(BuildQuery(filter, qid, uuid).value).Some?
    requires SameService(own, o) && GlobsAgree(lib, glob)
    ensures var data := Encoded(BuildQuery(filter, qid, uuid).value).value;
      SameAnswer(PyAnswer(data, own, lib), CppAnswer(data, o, stod, glob))
  {
    var msg := BuildQuery(filter, qid, uuid).value;
    var data, t := Encoded(msg).value, PyTree(PDict(msg));
    QueryFields(filter, qid, uuid);
    QueryComparable(filter, qid, uuid);
    QueryJoined(filter, qid, uuid);
    QueryDecodes(filter, qid, uuid);
    QueryWf(filter, qid, uuid, AnyNumber());
    QueryWf(filter, qid, uuid, Finite(stod));
    PlainText(t, AnyNumber());
    hide BuildQuery, L, Comparable, GlobsAgree, SameService, Wf, SameAnswer, PyAnswer, CppAnswer, Simple,
         SimpleFilter, Get, ValidMessage, ValidDiscover, PText;
    RespondersAgree(data, own, o, lib, stod, glob);
  }

  lemma QueryDecodes(filter: Option<Dict>, qid: Option<Str>, uuid: Str)
    requires BuildQuery(filter, qid, uuid).Some? && UnsplitFilter(filter) && NoPairs(Or(qid, uuid))
    requires Encoded(BuildQuery(filter, qid, uuid).value).Some?
    ensures var msg := BuildQuery(filter, qid, uuid).value; Decoded(Encoded(msg).value) == Some(msg)
  {
    QueryJoined(filter, qid, uuid);
    if filter.Some? && filter.value != [] {
      FilterJoined(filter.value);
    } else if filter.Some? {
      assert Real(PDict([]));
    }
    QueryRoundTrip(filter, qid, uuid);
  }

  // ---- beyond U+FFFF they differ ----

  /** `fnmatch` on a pattern without wildcards: equality. */
  function ExactLib(str: PyVal -> Str): Lib { Lib((v: Str, p: Str) => v == p, str) }

  function ExactGlob(): Glob { (p: Bytes, v: Bytes) => p == v }

  lemma ExactAgree(str: PyVal -> Str)
    ensures GlobsAgree(ExactLib(str), ExactGlob())
  {
    forall p: Str, v: Str | NoNul(p) && NoNul(v)
      ensures ExactGlob()(Encode(p), Encode(v)) == ExactLib(str).fnmatch(v, p)
    {
      if Encode(p) == Encode(v) { EncodeInjective(p, v); }
    }
  }

  lemma {:induction false} NameOnly(p: Str)
    ensures var f := [Entry(K_NAME, PStr(p))];
      ValidFilter(PDict(f)) && DistinctKeys(f) && FindMember(PyMembersOf(f), K_NAME) == Some(TStr(PyItems(p)))
  {
    Names();
    hide L;
    var f := [Entry(K_NAME, PStr(p))];
    AsciiSimple(K_NAME);
    FindPrinted(f, K_NAME);
    GetOne(f[0], K_NAME);
  }

  predicate AstralQuery(name: Str, qid: Str) {
    && qid != [] && Simple(qid) && NoNul(name) && !InBmp(name) && NoSurrogates(name)
    && var msg := BuildQuery(Some([Entry(K_NAME, PStr(name))]), Some(qid), []);
       msg.Some? && Encoded(msg.value).Some?
  }

  function AstralDatagram(name: Str, qid: Str): Bytes
    requires AstralQuery(name, qid)
  {
    Encoded(BuildQuery(Some([Entry(K_NAME, PStr(name))]), Some(qid), []).value).value
  }

  lemma AstralPython(name: Str, qid: Str, own: Dict, o: Options, str: PyVal -> Str)
    requires AstralQuery(name, qid) && SameService(own, o) && o.name == Encode(name)
    ensures PyAnswer(AstralDatagram(name, qid), own, ExactLib(str)) == Reply(Some(PStr(qid)))
  {
    var f := [Entry(K_NAME, PStr(name))];
    var msg, data := BuildQuery(Some(f), Some(qid), []).value, AstralDatagram(name, qid);
    NameOnly(name);
    QueryFields(Some(f), Some(qid), []);
    QueryDecodes(Some(f), Some(qid), []);
    Whole(data);
    NameMatches(name, own, o, str);
    hide L, BuildQuery, Get, Simple, InBmp, Encode, ValidMessage, ValidDiscover, ValidFilter, FindMember, MatchesFilter,
         NoSurrogates, NoNul, SameService, Encoded, PyAnswer;
    AnswersIf(data, msg, own, ExactLib(str));
  }

  lemma AnswersIf(data: Bytes, msg: Dict, own: Dict, lib: Lib)
    requires |data| <= MAX_DATAGRAM && Decoded(data) == Some(msg) && Get(msg, K_TYPE) == Some(PStr(DISCOVER))
    requires MatchesFilter(own, GetOrNone(msg, K_FILTER), lib)
    ensures PyAnswer(data, own, lib) == Reply(Get(msg, K_QID))
  {
    Whole(data);
    hide L, Decoded, Get, MatchesFilter;
  }

  lemma NameMatches(name: Str, own: Dict, o: Options, str: PyVal -> Str)
    requires NoSurrogates(name) && SameService(own, o) && o.name == Encode(name)
    ensures MatchesFilter(own, PDict([Entry(K_NAME, PStr(name))]), ExactLib(str))
  {
    Utf8IffNoSurrogates(name);
    hide L, Get, Encode;
  }

  lemma AstralRejected(name: Str, o: Options, stod: Stod)
    requires NoNul(name) && !InBmp(name) && FieldOk(o.name) && o.name == Encode(name)
    ensures !CppMatches(o, Value(TObj([], PyMembersOf([Entry(K_NAME, PStr(name))])), stod), ExactGlob())
  {
    var f := [Entry(K_NAME, PStr(name))];
    NameOnly(name);
    FirstOf(PyMembersOf(f), K_NAME, stod);
    AstralPattern(name);
    WholeCStr(o.name);
    hide PyMembersOf, First, FindMember, L, InBmp, NoNul, Encode, CStr, ItemsValue;
  }

  lemma AstralCpp(name: Str, qid: Str, own: Dict, o: Options, stod: Stod)
    requires AstralQuery(name, qid) && SameService(own, o) && o.name == Encode(name)
    ensures CppAnswer(AstralDatagram(name, qid), o, stod, ExactGlob()).Silent?
  {
    var f := [Entry(K_NAME, PStr(name))];
    var msg, data := BuildQuery(Some(f), Some(qid), []).value, AstralDatagram(name, qid);
    var t := PyTree(PDict(msg));
    QueryFields(Some(f), Some(qid), []);
    NameOnly(name);
    QueryJoined(Some(f), Some(qid), []);
    QueryWf(Some(f), Some(qid), [], Finite(stod));
    PlainText(t, Finite(stod));
    Names();
    Whole(data);
    AstralRejected(name, o, stod);
    hide L, BuildQuery, Get, Simple, ValidMessage, ValidDiscover, ValidFilter, PText, Wf, AllJoined, StrsOf, InBmp,
         NoNul, CppMatches, First, FindMember, PyMembersOf, MemberValues, Text, AsString;
    NotEmptyText(data, Finite(stod));
    FilterRejects(data, msg, f, o, stod);
  }

  /** A printed query whose filter rejects the application is not answered. */
  lemma FilterRejects(data: Bytes, msg: Dict, f: Dict, o: Options, stod: Stod)
    requires data != [] && |data| <= MAX_DATAGRAM && PText(data, Finite(stod)) == Ok(PyTree(PDict(msg)), [])
    requires Get(msg, K_FILTER) == Some(PDict(f)) && forall e <- msg :: InBmp(e.key)
    requires !CppMatches(o, Value(TObj([], PyMembersOf(f)), stod), ExactGlob())
    ensures CppAnswer(data, o, stod, ExactGlob()).Silent?
  {
    var t := PyTree(PDict(msg));
    Names();
    hide L, CppMatches, First, FindMember, MemberValues, PText, InBmp, Value, Get;
    Whole(data);
    CppReads(data, t, o, stod, ExactGlob());
    FindPrinted(msg, K_FILTER);
    FirstOf(t.members, K_FILTER, stod);
  }

  lemma AstralPattern(name: Str)
    requires NoNul(name) && !InBmp(name)
    ensures CStr(ItemsValue(PyItems(name))) == ItemsValue(PyItems(name)) != Encode(name)
  {
    CppReadsString(name);
    PyItemsBack(name);
    UnitsNoNul(name);
    EncodeNoNul(Units(name));
    WholeCStr(Encode(Units(name)));
  }

  lemma {:induction false} UnitsNoNul(s: Str)
    requires NoNul(s)
    ensures NoNul(Units(s))
  {
    if s != [] {
      assert NoNul(s[1..]) by { assert forall i | 0 <= i < |s[1..]| :: s[1..][i] == s[i + 1]; }
      UnitsNoNul(s[1..]);
      assert forall i | 0 <= i < |UnitsOf(s[0])| :: UnitsOf(s[0])[i] != 0;
    }
  }

  lemma NotEmptyText(data: Bytes, ok: Bytes -> bool)
    requires PText(data, ok).Ok?
    ensures data != []
  {
  }

  /** The agreement stops where `InBmp` does: a client asking by name for an application whose
      name has a character beyond U+FFFF is answered by the Python responder for that
      application and not by the C++ one. */
  lemma AstralNameMissed(name: Str, qid: Str, own: Dict, o: Options, str: PyVal -> Str, stod: Stod)
    requires AstralQuery(name, qid) && SameService(own, o) && o.name == Encode(name)
    ensures GlobsAgree(ExactLib(str), ExactGlob())
    ensures PyAnswer(AstralDatagram(name, qid), own, ExactLib(str)) == Reply(Some(PStr(qid)))
    ensures CppAnswer(AstralDatagram(name, qid), o, stod, ExactGlob()).Silent?
  {
    ExactAgree(str);
    AstralPython(name, qid, own, o, str);
    AstralCpp(name, qid, own, o, stod);
  }

  // ---- with repeated keys they differ ----

  /** A DISCOVER with two ids. */
  function TwoIds(a: Bytes, b: Bytes): Dict {
    [Entry(K_PROTO, PStr(PROTO)), Entry(K_TYPE, PStr(DISCOVER)), Entry(K_QID, PStr(a)), Entry(K_QID, PStr(b))]
  }

  /** What both languages read of printed string members, repeated keys or not. */
  lemma StringsText(d: Dict, stod: Stod)
    requires forall e <- d :: e.val.PStr?
    ensures var t := PyTree(PDict(d));
      PText(Dumps(PDict(d)), Finite(stod)) == Ok(t, []) && Loads(Dumps(PDict(d))) == Some(PyValue(t))
  {
    RealEach(d);
    PyMembersOk(d);
    FilterWf(d, Finite(stod));
    PlainText(PyTree(PDict(d)), Finite(stod));
    LoadsText(PyTree(PDict(d)));
  }

  lemma StringsBack(d: Dict)
    requires forall e <- d :: e.val.PStr? && NoPairs(e.key) && NoPairs(e.val.s)
    ensures PyPairs(PyMembersOf(d)) == d
  {
    forall e | e in d ensures AllJoined(StrsOf(e.val)) { OneJoined(e.val.s); }
    JoinedEach(d);
    RealEach(d);
    PyPairsBack(d);
  }

  /** Python keeps the second id. */
  lemma LastIdWins(a: Bytes, b: Bytes)
    requires Ascii(a) && Ascii(b) && b != []
    ensures PyValue(PyTree(PDict(TwoIds(a, b)))) == PDict(BuildQuery(None, Some(b), b).value)
  {
    var d := TwoIds(a, b);
    PlainKeys();
    AsciiSimple(a);
    AsciiSimple(b);
    hide L, NoPairs, InBmp, ItemsValue, BuildQuery, PyMembersOf, FromPairs, PyPairs, PyItems, PyTree, PyValue;
    assert forall e <- d :: e.val.PStr? && NoPairs(e.key) && NoPairs(e.val.s);
    StringsBack(d);
    TwoIdsDict(a, b);
    DictValue(d);
  }

  lemma DictValue(d: Dict)
    ensures PyValue(PyTree(PDict(d))) == PDict(FromPairs(PyPairs(PyMembersOf(d))))
  {
  }

  lemma TwoIdsDict(a: Bytes, b: Bytes)
    requires b != []
    ensures FromPairs(TwoIds(a, b)) == BuildQuery(None, Some(b), b).value
  {
    var d := TwoIds(a, b);
    Names();
    hide L;
    FromDistinct(d[..3]);
    SetThird(d[..3], d[3]);
  }

  lemma SetThird(d: Dict, e: Entry)
    requires |d| == 3 && d[0].key != e.key && d[1].key != e.key && d[2].key == e.key
    ensures SetItem(d, e.key, e.val) == [d[0], d[1], e]
  {
    assert d[1..] == [d[1], d[2]] && [d[1], d[2]][1..] == [d[2]] && [d[2]][1..] == [];
    assert SetItem([d[2]], e.key, e.val) == [e];
    assert SetItem([d[1], d[2]], e.key, e.val) == [d[1], e];
  }

  /** C++ finds the first. */
  lemma FirstIdFound(a: Bytes, b: Bytes)
    ensures var d := TwoIds(a, b);
      && Get(d, K_QID) == Some(PStr(a)) && Get(d, K_TYPE) == Some(PStr(DISCOVER))
      && Get(d, K_PROTO) == Some(PStr(PROTO)) && Get(d, K_FILTER).None? && forall e <- d :: PlainKey(e.key)
  {
    var d := TwoIds(a, b);
    PlainKeys();
    Names();
    hide L, PlainKey;
    GetAt(d, 0);
    GetAt(d, 1);
    GetAt(d, 2);
    GetAbsent(d, K_FILTER);
  }

  /** With two ids in one DISCOVER every responder whose filter it passes answers, Python
      echoing the last and C++ the first: the agreement needs distinct keys. */
  lemma TwoIdsDiffer(a: Bytes, b: Bytes, own: Dict, o: Options, lib: Lib, stod: Stod, glob: Glob)
    requires Ascii(a) && Ascii(b) && b != [] && |Dumps(PDict(TwoIds(a, b)))| <= MAX_DATAGRAM
    ensures PyAnswer(Dumps(PDict(TwoIds(a, b))), own, lib) == Reply(Some(PStr(b)))
    ensures CppAnswer(Dumps(PDict(TwoIds(a, b))), o, stod, glob) == Reply(Some(a))
  {
    var d, data := TwoIds(a, b), Dumps(PDict(TwoIds(a, b)));
    var ms := PyMembersOf(d);
    StringsText(d, stod);
    LastIdWins(a, b);
    QueryFields(None, Some(b), b);
    FirstIdFound(a, b);
    Names();
    Whole(data);
    hide L, PlainKey, Get, BuildQuery, PText, TwoIds, First, MemberValues, FindMember, Loads;
    TwoIdsPython(data, b, own, lib);
    hide PyAnswer;
    forall e | e in d ensures InBmp(e.key) { NoPairsOf(e.key); }
    NotEmptyText(data, Finite(stod));
    CppReads(data, PyTree(PDict(d)), o, stod, glob);
    PrintedField(d, K_TYPE, DISCOVER, stod);
    PrintedField(d, K_PROTO, PROTO, stod);
    PrintedField(d, K_QID, a, stod);
    FindPrinted(d, K_FILTER);
    FirstOf(ms, K_FILTER, stod);
  }

  lemma TwoIdsPython(data: Bytes, b: Bytes, own: Dict, lib: Lib)
    requires b != [] && |data| <= MAX_DATAGRAM && Loads(data) == Some(PDict(BuildQuery(None, Some(b), b).value))
    ensures PyAnswer(data, own, lib) == Reply(Some(PStr(b)))
  {
    QueryFields(None, Some(b), b);
    Whole(data);
    hide Loads, L, Get, BuildQuery;
  }

  lemma PrintedField(d: Dict, k: Bytes, word: Bytes, stod: Stod)
    requires Ascii(k) && Ascii(word) && Get(d, k) == Some(PStr(word)) && forall e <- d :: InBmp(e.key)
    ensures First(MemberValues(PyMembersOf(d), stod), k) == Some(Str(word))
  {
    FindPrinted(d, k);
    FirstOf(PyMembersOf(d), k, stod);
    AsciiSimple(word);
  }

  // ---- on messages Python rejects they differ ----

  /** A DISCOVER with no id at all. */
  function NoId(): Dict { [Entry(K_PROTO, PStr(PROTO)), Entry(K_TYPE, PStr(DISCOVER))] }

  lemma NoIdFields()
    ensures var d := NoId();
      && Get(d, K_QID).None? && Get(d, K_TYPE) == Some(PStr(DISCOVER)) && Get(d, K_PROTO) == Some(PStr(PROTO))
      && Get(d, K_FILTER).None? && DistinctKeys(d)
      && forall e <- d :: PlainKey(e.key) && e.val.PStr? && PlainKey(e.val.s)
  {
    var d := NoId();
    PlainKeys();
    Names();
    hide L, PlainKey;
    GetAt(d, 0);
    GetAt(d, 1);
    GetAbsent(d, K_QID);
    GetAbsent(d, K_FILTER);
  }

  lemma NoIdPython(own: Dict, lib: Lib)
    ensures PyAnswer(Dumps(PDict(NoId())), own, lib).Silent?
  {
    var d := NoId();
    NoIdFields();
    Names();
    hide L, PlainKey, Get, NoId, Loads, PyTree, PyPairs, PyValue, DistinctKeys, FromPairs, MatchesFilter;
    forall e | e in d ensures NoPairs(e.key) && NoPairs(e.val.s) {
      NoPairsOf(e.key);
      NoPairsOf(e.val.s);
    }
    hide NoPairs;
    StringsText(d, _ => None);
    StringsBack(d);
    DictValue(d);
    FromDistinct(d);
    NotDecoded(Dumps(PDict(d)), d, own, lib);
  }

  lemma NotDecoded(data: Bytes, msg: Dict, own: Dict, lib: Lib)
    requires Loads(data) == Some(PDict(msg)) && !ValidMessage(msg)
    ensures PyAnswer(data, own, lib).Silent?
  {
    hide Loads, ValidMessage, L;
    if |data| <= MAX_DATAGRAM { Whole(data); }
  }

  lemma NoIdCpp(o: Options, stod: Stod, glob: Glob)
    ensures CppAnswer(Dumps(PDict(NoId())), o, stod, glob) == Reply(None)
  {
    var d, data := NoId(), Dumps(PDict(NoId()));
    var ms := PyMembersOf(d);
    NoIdFields();
    NoIdSize();
    Names();
    hide L, PlainKey, Get, NoId, PText, First, MemberValues, FindMember, InBmp, PyTree;
    forall e | e in d ensures InBmp(e.key) { NoPairsOf(e.key); }
    Whole(data);
    StringsText(d, stod);
    NotEmptyText(data, Finite(stod));
    ObjectTree(d);
    CppReads(data, PyTree(PDict(d)), o, stod, glob);
    PrintedField(d, K_TYPE, DISCOVER, stod);
    PrintedField(d, K_PROTO, PROTO, stod);
    FindPrinted(d, K_QID);
    FirstOf(ms, K_QID, stod);
    FindPrinted(d, K_FILTER);
    FirstOf(ms, K_FILTER, stod);
  }

  lemma PlainWords()
    ensures MessageSize.Plain(K_PROTO) && MessageSize.Plain(PROTO) && MessageSize.Plain(K_TYPE)
            && MessageSize.Plain(DISCOVER)
    ensures |K_PROTO| == 5 && |PROTO| == 19 && |K_TYPE| == 4 && |DISCOVER| == 8
  {
  }

  lemma NoIdSize()
    ensures |Dumps(PDict(NoId()))| == 49
  {
    var e, f := NoId()[0], NoId()[1];
    PlainWords();
    hide L, Dumps, MessageSize.Plain, MessageSize.MemberSize;
    assert [e] + [f] + [] == NoId() && [e] + [] == [e];
    MessageSize.PyOneMore([e], f, []);
    MessageSize.PyOneSize(e);
    MessageSize.EntrySize(e);
    MessageSize.EntrySize(f);
    MessageSize.PyQuotedSize(K_PROTO);
    MessageSize.PyQuotedSize(PROTO);
    MessageSize.PyQuotedSize(K_TYPE);
    MessageSize.PyQuotedSize(DISCOVER);
  }

  lemma ObjectTree(d: Dict)
    ensures PyTree(PDict(d)) == TObj([], PyMembersOf(d))
  {
  }

  /** C++ answers a DISCOVER that Python refuses for having no id, and echoes none: it validates
      nothing. */
  lemma NoIdDiffers(own: Dict, o: Options, lib: Lib, stod: Stod, glob: Glob)
    ensures PyAnswer(Dumps(PDict(NoId())), own, lib).Silent?
    ensures CppAnswer(Dumps(PDict(NoId())), o, stod, glob) == Reply(None)
  {
    NoIdPython(own, lib);
    NoIdCpp(o, stod, glob);
  }
}
