/** Inputs on which the two responders part, one for each way they can. */
module Differences {
  import opened Bytes
  import opened Grammar
  import opened Descent
  import opened DescentProofs
  import opened CppJson
  import opened CppMessages
  import opened CppToPython
  import opened RoundTrip
  import opened PyText
  import opened PyJson
  import opened Protocol
  import opened ProtocolProofs
  import opened Agreement
  import opened ClientQueries
  import opened AgreementExact
  import opened Refused
  import opened Silence
  import opened Utf8
  import MessageSize

  // ---- a pattern with a NUL ----

  lemma {:induction false} CStrStops(a: Bytes, z: Bytes)
    requires NoNul(a)
    ensures CStr(a + ([0] + z)) == a
  {
    if a == [] {
      assert a + ([0] + z) == [0] + z;
    } else {
      ConsConcat(a, [0] + z);
      CStrStops(a[1..], z);
      HeadTail(a);
    }
  }

  /** A query for the application `app`, with a NUL and `tail` behind its name. */
  predicate NulQuery(app: Str, tail: Str, qid: Str) {
    && Simple(qid) && NoNul(app) && NoSurrogates(app) && InBmp(app + ([0] + tail)) && NoPairs(app + ([0] + tail))
    && var msg := AppMsg(app + ([0] + tail), qid); msg.Some? && Encoded(msg.value).Some?
  }

  function NulDatagram(app: Str, tail: Str, qid: Str): Bytes
    requires NulQuery(app, tail, qid)
  {
    Encoded(AppMsg(app + ([0] + tail), qid).value).value
  }

  lemma {:induction false} AppOnly(p: Str)
    ensures var f := [Entry(K_APP, PStr(p))];
      && ValidFilter(PDict(f)) && DistinctKeys(f) && FindMember(PyMembersOf(f), K_APP) == Some(TStr(PyItems(p)))
      && FindMember(PyMembersOf(f), K_NAME).None? && FindMember(PyMembersOf(f), K_HOST).None?
  {
    Names();
    hide L;
    var f := [Entry(K_APP, PStr(p))];
    AsciiSimple(K_APP);
    FindPrinted(f, K_APP);
    FindPrinted(f, K_NAME);
    FindPrinted(f, K_HOST);
    GetOne(f[0], K_APP);
    GetOne(f[0], K_NAME);
    GetOne(f[0], K_HOST);
  }

  /** The query for one application pattern. */
  function AppMsg(p: Str, qid: Str): Option<Dict> { BuildQuery(Some([Entry(K_APP, PStr(p))]), Some(qid), qid) }

  lemma AppFields(p: Str, qid: Str)
    requires InBmp(p) && NoPairs(p) && Simple(qid) && AppMsg(p, qid).Some?
    ensures var msg := AppMsg(p, qid).value;
      && Get(msg, K_QID) == Some(PStr(qid)) && Get(msg, K_FILTER) == Some(PDict([Entry(K_APP, PStr(p))]))
      && Get(msg, K_TYPE) == Some(PStr(DISCOVER)) && DistinctKeys(msg)
      && AllJoined(StrsOf(PDict(msg))) && Real(PDict(msg)) && forall e <- msg :: InBmp(e.key)
  {
    var f := [Entry(K_APP, PStr(p))];
    AppOnly(p);
    QueryFields(Some(f), Some(qid), qid);
    QueryJoined(Some(f), Some(qid), qid);
    hide L, Get, BuildQuery, Real, AllJoined, StrsOf, InBmp;
  }

  lemma AppPairs(p: Str, qid: Str)
    requires InBmp(p) && NoPairs(p) && Simple(qid) && AppMsg(p, qid).Some?
    ensures PyPairs(PyMembersOf(AppMsg(p, qid).value)) == AppMsg(p, qid).value
    ensures PyPairs(PyMembersOf([Entry(K_APP, PStr(p))])) == [Entry(K_APP, PStr(p))]
  {
    AppFields(p, qid);
    PlainKeys();
    NoPairsOf(K_APP);
    StringsBack([Entry(K_APP, PStr(p))]);
    hide L, Get, AppMsg, InBmp, NoPairs, PlainKey, Simple, DistinctKeys;
    PyPairsBack(AppMsg(p, qid).value);
  }

  lemma AppFound(p: Str, qid: Str)
    requires InBmp(p) && NoPairs(p) && Simple(qid) && AppMsg(p, qid).Some?
    ensures var ms := PyMembersOf(AppMsg(p, qid).value);
      && FindMember(ms, K_QID) == Some(TStr(PyItems(qid)))
      && FindMember(ms, K_FILTER) == Some(TObj([], PyMembersOf([Entry(K_APP, PStr(p))])))
  {
    var msg := AppMsg(p, qid).value;
    AppFields(p, qid);
    Names();
    ObjectTree([Entry(K_APP, PStr(p))]);
    hide L, Get, AppMsg, InBmp, NoPairs, FindMember, Simple, DistinctKeys, AllJoined, StrsOf, Real, PyMembersOf;
    FindPrinted(msg, K_QID);
    FindPrinted(msg, K_FILTER);
  }

  lemma AppTree(p: Str, qid: Str)
    requires InBmp(p) && NoPairs(p) && Simple(qid) && AppMsg(p, qid).Some?
    ensures PyTree(PDict(AppMsg(p, qid).value)) == TObj([], PyMembersOf(AppMsg(p, qid).value))
    ensures Distinct(PyTree(PDict(AppMsg(p, qid).value)))
  {
    AppFields(p, qid);
    AppOnly(p);
    AppPairs(p, qid);
    AppFound(p, qid);
    ObjectTree(AppMsg(p, qid).value);
    hide L, Get, AppMsg, InBmp, NoPairs, FindMember, Simple, DistinctKeys, AllJoined, StrsOf, Real, PyMembersOf,
         PyPairs, PyTree;
  }

  /** The queries of one application pattern, as both read them. */
  lemma AppQuery(p: Str, qid: Str)
    requires InBmp(p) && NoPairs(p) && Simple(qid) && AppMsg(p, qid).Some? && Encoded(AppMsg(p, qid).value).Some?
    ensures var msg := AppMsg(p, qid).value;
      Accepts(Encoded(msg).value, PyTree(PDict(msg))) && Decoded(Encoded(msg).value) == Some(msg)
  {
    hide L, Get, Text, PText, Decoded, InBmp, NoPairs, FindMember, Distinct, PyTree;
    var f, msg := [Entry(K_APP, PStr(p))], AppMsg(p, qid).value;
    AppFields(p, qid);
    AppTree(p, qid);
    AppOnly(p);
    QueryDecodes(Some(f), Some(qid), qid);
    QueryWf(Some(f), Some(qid), qid, AnyNumber());
    PlainText(PyTree(PDict(msg)), AnyNumber());
    hide BuildQuery, Wf, Simple;
  }

  /** The application named `app` is rejected by Python, whose pattern has a NUL, and answers in
      C++, where `c_str` ends the pattern before it. */
  lemma NulPatternDiffers(app: Str, tail: Str, qid: Str, own: Dict, o: Options, str: PyVal -> Str,
                          stod: Stod)
    requires NulQuery(app, tail, qid) && SameService(own, o) && o.app == Encode(app)
    ensures GlobsAgree(ExactLib(str), ExactGlob())
    ensures PyAnswer(NulDatagram(app, tail, qid), own, ExactLib(str)).Silent?
    ensures CppAnswer(NulDatagram(app, tail, qid), o, stod, ExactGlob()) == Reply(Some(Encode(qid)))
  {
    ExactAgree(str);
    NulPython(app, tail, qid, own, o, str);
    NulCpp(app, tail, qid, own, o, stod);
  }

  lemma NulPython(app: Str, tail: Str, qid: Str, own: Dict, o: Options, str: PyVal -> Str)
    requires NulQuery(app, tail, qid) && SameService(own, o) && o.app == Encode(app)
    ensures PyAnswer(NulDatagram(app, tail, qid), own, ExactLib(str)).Silent?
  {
    hide L, Get, AppMsg, Encoded, Accepts, FindMember, PyTree, InBmp, NoPairs, Simple, Encode, NoNul;
    var p := app + ([0] + tail);
    var f := [Entry(K_APP, PStr(p))];
    AppQuery(p, qid);
    AppTree(p, qid);
    AppPairs(p, qid);
    AppFields(p, qid);
    Utf8IffNoSurrogates(app);
    assert |p| > |app| && f[0] in f;
    PyAnswers(NulDatagram(app, tail, qid), PyTree(PDict(AppMsg(p, qid).value)), own, ExactLib(str));
  }

  /** What `c_str` leaves of the pattern. */
  lemma NulPattern(app: Str, tail: Str)
    requires NoNul(app) && InBmp(app + ([0] + tail))
    ensures CStr(ItemsValue(PyItems(app + ([0] + tail)))) == Encode(app) == CStr(Encode(app))
  {
    hide ItemsValue, PyItems, CStr, Encode;
    CppReadsString(app + ([0] + tail));
    EncodeConcat(app, [0] + tail);
    EncodeConcat([0], tail);
    AsciiEncode([0]);
    EncodeNoNul(app);
    CStrStops(Encode(app), Encode(tail));
    WholeCStr(Encode(app));
  }

  lemma NulCpp(app: Str, tail: Str, qid: Str, own: Dict, o: Options, stod: Stod)
    requires NulQuery(app, tail, qid) && SameService(own, o) && o.app == Encode(app)
    ensures CppAnswer(NulDatagram(app, tail, qid), o, stod, ExactGlob()) == Reply(Some(Encode(qid)))
  {
    var p := app + ([0] + tail);
    var t := PyTree(PDict(AppMsg(p, qid).value));
    AppQuery(p, qid);
    AppTree(p, qid);
    AppFound(p, qid);
    QueryWf(Some([Entry(K_APP, PStr(p))]), Some(qid), qid, Finite(stod));
    CppReadsString(qid);
    NulPattern(app, tail);
    NulFilter(p, o, stod);
    hide L, AppMsg, Encoded, Accepts, FindMember, PyTree, InBmp, NoPairs, Encode, NoNul, CStr, ItemsValue, Wf,
         CppMatches, First, MemberValues, Value, PyMembersOf, SameService, FieldOk, BuildQuery;
    CppAnswers(NulDatagram(app, tail, qid), t, o, stod, ExactGlob());
    FirstOf(t.members, K_FILTER, stod);
    FirstOf(t.members, K_QID, stod);
    StringValueOf(PyItems(qid), stod);
  }

  lemma StringValueOf(items: seq<Item>, stod: Stod)
    ensures Value(TStr(items), stod) == Str(ItemsValue(items))
            && AsString(Value(TStr(items), stod)) == ItemsValue(items)
  {
  }

  lemma {:induction false} NulFilter(p: Str, o: Options, stod: Stod)
    requires CStr(ItemsValue(PyItems(p))) == CStr(o.app)
    ensures CppMatches(o, Value(TObj([], PyMembersOf([Entry(K_APP, PStr(p))])), stod), ExactGlob())
  {
    var fms := PyMembersOf([Entry(K_APP, PStr(p))]);
    AppOnly(p);
    FirstOf(fms, K_APP, stod);
    FirstOf(fms, K_NAME, stod);
    FirstOf(fms, K_HOST, stod);
    hide L, CStr, ItemsValue, FindMember, First, MemberValues, PyMembersOf;
  }

  // ---- a number `stod` refuses ----

  const K_X: Bytes := L("x")

  /** A DISCOVER with one more member, a number. */
  function NumberMsg(n: int, qid: Bytes): Dict { NoId() + [Entry(K_QID, PStr(qid)), Entry(K_X, PInt(n))] }

  lemma NumberFields(n: int, qid: Bytes)
    requires Ascii(qid)
    ensures var d := NumberMsg(n, qid);
      && DistinctKeys(d) && RealEntries(d) && (forall e <- d :: PlainKey(e.key)) && |d| == 4
        && d[3] == Entry(K_X, PInt(n))
      && Get(d, K_PROTO) == Some(PStr(PROTO)) && Get(d, K_TYPE) == Some(PStr(DISCOVER))
        && Get(d, K_QID) == Some(PStr(qid))
      && Get(d, K_FILTER).None?
  {
    var d := NumberMsg(n, qid);
    NumberKeys(n, qid);
    Names();
    Word("x");
    hide L, PlainKey, Get, DistinctKeys;
    RealEach(d);
    GetAt(d, 0);
    GetAt(d, 1);
    GetAt(d, 2);
    GetAbsent(d, K_FILTER);
  }

  lemma NumberKeys(n: int, qid: Bytes)
    ensures DistinctKeys(NumberMsg(n, qid)) && forall e <- NumberMsg(n, qid) :: PlainKey(e.key)
  {
    PlainKeys();
    PlainX();
    Names();
    Word("x");
    hide L, PlainKey;
  }

  lemma PlainX()
    ensures PlainKey(K_X)
  {
    Word("x");
    AsciiSimple(K_X);
  }

  /** An integer beyond int64 whose text `stod` refuses, one of 310 digits say: Python, which
      reads any integer, answers, and C++ does not. */
  lemma HugeNumberDiffers(n: int, qid: Bytes, own: Dict, o: Options, lib: Lib, stod: Stod, glob: Glob)
    requires !(INT64_MIN <= n <= INT64_MAX) && stod(ShowInt(n)).None?
    requires Ascii(qid) && |Dumps(PDict(NumberMsg(n, qid)))| <= MAX_DATAGRAM
    ensures PyAnswer(Dumps(PDict(NumberMsg(n, qid))), own, lib) == Reply(Some(PStr(qid)))
    ensures CppAnswer(Dumps(PDict(NumberMsg(n, qid))), o, stod, glob).Silent?
  {
    HugePython(n, qid, own, lib);
    HugeCpp(n, qid, o, stod, glob);
  }

  lemma HugePython(n: int, qid: Bytes, own: Dict, lib: Lib)
    requires Ascii(qid) && |Dumps(PDict(NumberMsg(n, qid)))| <= MAX_DATAGRAM
    ensures PyAnswer(Dumps(PDict(NumberMsg(n, qid))), own, lib) == Reply(Some(PStr(qid)))
  {
    var d := NumberMsg(n, qid);
    NumberFields(n, qid);
    AsciiWord(qid);
    AsciiWord(PROTO);
    AsciiWord(DISCOVER);
    Names();
    hide L, Get, NumberMsg, Dumps, Loads, Reread, PyTree, PyValue, PyStr, PyItems, PlainKey, PyAnswer, DistinctKeys;
    RereadField(d, K_PROTO);
    RereadField(d, K_TYPE);
    RereadField(d, K_QID);
    RereadField(d, K_FILTER);
    StringReread(PROTO);
    StringReread(DISCOVER);
    StringReread(qid);
    assert ValidMessage(Reread(d));
    AnswersIf(Dumps(PDict(d)), Reread(d), own, lib);
  }

  lemma HugeCpp(n: int, qid: Bytes, o: Options, stod: Stod, glob: Glob)
    requires !(INT64_MIN <= n <= INT64_MAX) && stod(ShowInt(n)).None?
    requires Ascii(qid) && |Dumps(PDict(NumberMsg(n, qid)))| <= MAX_DATAGRAM
    ensures CppAnswer(Dumps(PDict(NumberMsg(n, qid))), o, stod, glob).Silent?
  {
    var d := NumberMsg(n, qid);
    var t := PyTree(PDict(d));
    NumberFields(n, qid);
    PyTreeOk(PDict(d));
    PlainText(t, AnyNumber());
    NumberUnread(n, qid, stod);
    hide L, Get, NumberMsg, Text, PText, PyTree, PlainKey, RealEntries, DistinctKeys, Wf, CppAnswer;
    SameDerivation(Dumps(PDict(d)), t, Finite(stod));
    Agreement.Silence(Dumps(PDict(d)), o, stod, glob);
  }

  lemma NumberUnread(n: int, qid: Bytes, stod: Stod)
    requires !(INT64_MIN <= n <= INT64_MAX) && stod(ShowInt(n)).None?
    ensures !Wf(PyTree(PDict(NumberMsg(n, qid))), Finite(stod))
  {
    var d := NumberMsg(n, qid);
    NumberShape(n, qid);
    TokenUnread(n, stod);
    hide L, NumberMsg, PyTree, Readable, NumTok;
    if Wf(PyTree(PDict(d)), Finite(stod)) { EntryWf(d, 3, Finite(stod)); }
  }

  lemma NumberShape(n: int, qid: Bytes)
    ensures |NumberMsg(n, qid)| == 4 && NumberMsg(n, qid)[3].val == PInt(n)
  {
    hide L;
  }

  lemma EntryWf(d: Dict, i: nat, ok: Bytes -> bool)
    requires i < |d| && Wf(PyTree(PDict(d)), ok)
    ensures Wf(PyTree(d[i].val), ok)
  {
    ObjectTree(d);
    hide PyTree;
    MemberWf(d, i, ok);
  }

  lemma TokenUnread(n: int, stod: Stod)
    requires !(INT64_MIN <= n <= INT64_MAX) && stod(ShowInt(n)).None?
    ensures !Wf(PyTree(PInt(n)), Finite(stod))
  {
    ShowIntToken(n);
    hide ShowInt, IntVal, IsFractional, NumTok;
  }

  lemma {:induction false} MemberWf(d: Dict, i: nat, ok: Bytes -> bool)
    requires i < |d| && MembersWf(PyMembersOf(d), ok)
    ensures Wf(PyTree(d[i].val), ok)
  {
    TailOfCons(PyMember(d[0]), PyMembersOf(d[1..]));
    if i > 0 { MemberWf(d[1..], i - 1, ok); }
  }

  // ---- what strict JSON forbids ----

  /** An id that is the one raw byte `b`. */
  function RawMember(b: byte): Member { Member([], PyItems(K_QID), [], Elem([], TStr([Raw(b)]), [])) }

  /** A DISCOVER with that id. */
  function RawTree(b: byte): Tree { TObj([], PyMembersOf(NoId()) + [RawMember(b)]) }

  lemma RawMemberWf(b: byte, ok: Bytes -> bool)
    requires b != QUOTE && b != BACKSLASH
    ensures MembersWf([RawMember(b)], ok) && [Raw(b)] in Strings(RawMember(b).val.t)
  {
    PyItemsClean(K_QID);
    hide PyItems, L;
    assert [RawMember(b)][1..] == [];
  }

  lemma RawTreeWf(b: byte, ok: Bytes -> bool)
    requires b != QUOTE && b != BACKSLASH
    ensures Wf(RawTree(b), ok) && [Raw(b)] in Strings(RawTree(b))
  {
    var ms := PyMembersOf(NoId());
    NoIdFields();
    hide NoId, L, Get, PlainKey, RawMember, PyMembersOf;
    FilterWf(NoId(), ok);
    ObjectTree(NoId());
    RawMemberWf(b, ok);
    AddMember(ms, RawMember(b), ok);
  }

  lemma {:induction false} AddMember(ms: seq<Member>, m: Member, ok: Bytes -> bool)
    requires MembersWf(ms, ok) && MembersWf([m], ok)
    ensures MembersWf(ms + [m], ok) && MemberStrings(ms + [m]) == MemberStrings(ms) + MemberStrings([m])
    ensures {m.key} + Strings(m.val.t) <= MemberStrings([m])
  {
    ConsConcat(ms, [m]);
    if ms != [] { AddMember(ms[1..], m, ok); }
    assert [m][1..] == [];
  }

  lemma RawTextSize(b: byte)
    ensures |Text(TStr([Raw(b)]), [])| == 3
  {
    assert [Raw(b)][1..] == [] && ItemsText([], []) == [QUOTE] + [];
  }

  lemma RawMemberSize(b: byte)
    ensures MessageSize.TotalSize([RawMember(b)]) == 9
  {
    MessageSize.PyQidSize([]);
    MessageSize.PyQuotedSize([]);
    RawTextSize(b);
    hide PyItems, L, Text;
    assert [RawMember(b)][1..] == [] && MessageSize.TotalSize([]) == 0;
  }

  lemma RawSize(b: byte)
    ensures |Text(RawTree(b), [])| == 59
  {
    var ms := PyMembersOf(NoId());
    NoIdSize();
    RawMemberSize(b);
    MessageSize.PyCompact(NoId());
    ObjectTree(NoId());
    TwoMembersPrinted();
    assert MessageSize.Compact(ms + [RawMember(b)]);
    hide NoId, L, PyMembersOf, RawMember, Text, MessageSize.Compact;
    MessageSize.ObjectSize(ms);
    MessageSize.ObjectSize(ms + [RawMember(b)]);
    MessageSize.TotalConcat(ms, [RawMember(b)]);
  }

  lemma TwoMembersPrinted()
    ensures |PyMembersOf(NoId())| == 2
  {
  }

  /** C++ keeps any byte of a string that is not a quote or a backslash and echoes it; Python
      refuses the datagram if it is a control character or not UTF-8. */
  lemma RawByteDiffers(b: byte, own: Dict, o: Options, lib: Lib, stod: Stod, glob: Glob)
    requires b < 0x20 || b >= 0x80
    ensures PyAnswer(Text(RawTree(b), []), own, lib).Silent?
    ensures CppAnswer(Text(RawTree(b), []), o, stod, glob) == Reply(Some([b]))
  {
    RawPython(b, own, lib);
    RawCpp(b, o, stod, glob);
  }

  lemma RawPython(b: byte, own: Dict, lib: Lib)
    requires b < 0x20 || b >= 0x80
    ensures PyAnswer(Text(RawTree(b), []), own, lib).Silent?
  {
    var t, data := RawTree(b), Text(RawTree(b), []);
    RawTreeWf(b, AnyNumber());
    RawSize(b);
    Whole(data);
    RawBody(b);
    NotLoaded(t, [Raw(b)]);
    hide RawTree, Text, Loads, L;
  }

  lemma NotLoaded(t: Tree, items: seq<Item>)
    requires Wf(t, AnyNumber()) && items in Strings(t) && !(NoControls(items) && CleanItems(items))
    ensures Loads(Text(t, [])).None?
  {
    hide Text, PText, Wf, NoControls, CleanItems, IsUtf8;
    PlainText(t, AnyNumber());
    TextUtf8(t, [], AnyNumber());
  }

  lemma RawBody(b: byte)
    ensures NoControls([Raw(b)]) ==> b >= 0x20
    ensures CleanItems([Raw(b)]) ==> b < 0x80
  {
    assert Body([Raw(b)][1..]) == [] && [Raw(b)][0] == Raw(b);
    assert Body([Raw(b)]) == [b];
  }

  lemma RawCpp(b: byte, o: Options, stod: Stod, glob: Glob)
    requires b != QUOTE && b != BACKSLASH
    ensures CppAnswer(Text(RawTree(b), []), o, stod, glob) == Reply(Some([b]))
  {
    var t, data := RawTree(b), Text(RawTree(b), []);
    RawTreeWf(b, Finite(stod));
    PlainText(t, Finite(stod));
    RawSize(b);
    Whole(data);
    RawFields(b);
    FirstOf(t.members, K_TYPE, stod);
    FirstOf(t.members, K_PROTO, stod);
    FirstOf(t.members, K_QID, stod);
    FirstOf(t.members, K_FILTER, stod);
    RawValues(b, stod);
    hide RawTree, Text, PText, Wf, L, First, MemberValues, FindMember, Value, AsString, PyItems;
    NotEmptyText(data, Finite(stod));
    CppReads(data, t, o, stod, glob);
  }

  lemma RawFields(b: byte)
    ensures var ms := RawTree(b).members;
      && FindMember(ms, K_TYPE) == Some(TStr(PyItems(DISCOVER)))
        && FindMember(ms, K_PROTO) == Some(TStr(PyItems(PROTO)))
      && FindMember(ms, K_QID) == Some(TStr([Raw(b)])) && FindMember(ms, K_FILTER).None?
  {
    var ms, m := PyMembersOf(NoId()), RawMember(b);
    NoIdFields();
    Names();
    AsciiSimple(K_QID);
    hide L, NoId, Get, PyItems, ItemsValue, PlainKey, FindMember;
    forall e | e in NoId() ensures InBmp(e.key) { NoPairsOf(e.key); }
    FindPrinted(NoId(), K_TYPE);
    FindPrinted(NoId(), K_PROTO);
    FindPrinted(NoId(), K_QID);
    FindPrinted(NoId(), K_FILTER);
    FindConcat(ms, m, K_TYPE);
    FindConcat(ms, m, K_PROTO);
    FindConcat(ms, m, K_QID);
    FindConcat(ms, m, K_FILTER);
  }

  lemma {:induction false} FindConcat(ms: seq<Member>, m: Member, k: Bytes)
    ensures FindMember(ms + [m], k) ==
            if FindMember(ms, k).Some? then FindMember(ms, k)
              else if ItemsValue(m.key) == k then Some(m.val.t) else None
  {
    ConsConcat(ms, [m]);
    if ms == [] { assert [m][1..] == []; } else { FindConcat(ms[1..], m, k); }
  }

  lemma RawValues(b: byte, stod: Stod)
    ensures AsString(Value(TStr(PyItems(DISCOVER)), stod)) == DISCOVER
            && AsString(Value(TStr(PyItems(PROTO)), stod)) == PROTO
    ensures AsString(Value(TStr([Raw(b)]), stod)) == [b]
  {
    Names();
    AsciiSimple(DISCOVER);
    AsciiSimple(PROTO);
    assert ItemsValue([Raw(b)][1..]) == [] && [Raw(b)][0] == Raw(b);
  }

  // ---- what the buffer cuts off ----

  /** A DISCOVER, blanks to the end of the C++ buffer, and one more byte: no text at all, but
      answered. */
  lemma JunkIsAnswered(o: Options, stod: Stod, glob: Glob)
    ensures var datagram := Dumps(PDict(NoId())) + Spaces(1351) + [0x78];
      CppAnswer(datagram, o, stod, glob) == Reply(None) && CppAnswerTo(datagram, o, stod, glob).Silent?
  {
    var text := Dumps(PDict(NoId()));
    NoIdCpp(o, stod, glob);
    NoIdSize();
    Whole(text);
    hide Dumps, NoId, CppAnswerTo, Spaces, L;
    NotBlank();
    JunkBehind(text, [0x78], o, stod, glob);
  }

  lemma NotBlank()
    ensures !Blank([0x78])
  {
    assert !IsWs([0x78][0]);
  }
}
