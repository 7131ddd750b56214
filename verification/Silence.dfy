/** An ANNOUNCE, whoever printed it, as a Python and as a C++ responder read it. */
module Silence {
  import opened Bytes
  import opened Grammar
  import opened Descent
  import opened DescentProofs
  import opened CppJson
  import opened CppMessages
  import opened CppAnnounce
  import opened RoundTrip
  import opened PyText
  import opened PyJson
  import opened Protocol
  import opened ProtocolProofs
  import opened Agreement
  import opened ClientQueries
  import opened Utf8

  /** A dict as `json.dumps` and `json.loads` leave it. */
  function Reread(d: Dict): Dict { FromPairs(PyPairs(PyMembersOf(d))) }

  lemma RereadKeys(d: Dict)
    requires forall e <- d :: PlainKey(e.key)
    ensures |PyPairs(PyMembersOf(d))| == |d|
    ensures forall i | 0 <= i < |d| :: PyPairs(PyMembersOf(d))[i].key == d[i].key
    ensures forall m <- PyMembersOf(d) :: Decodes(m.key)
  {
    var ms := PyMembersOf(d);
    PrintedMembers(d);
    PairsAre(ms);
    forall i | 0 <= i < |d| ensures PyStr(ms[i].key) == d[i].key && Decodes(ms[i].key) {
      assert d[i] in d;
      PyStrBack(d[i].key);
      PyItemsBack(d[i].key);
      DecodeEncode(Units(d[i].key));
    }
    hide PyStr, Decodes, PyValue, PyTree, PyItems;
    forall m | m in ms ensures Decodes(m.key) { var i :| 0 <= i < |ms| && ms[i] == m; }
  }

  /** A field of the dict read back is the field printed, read back. */
  lemma RereadField(d: Dict, k: Bytes)
    requires DistinctKeys(d) && RealEntries(d) && Ascii(k) && forall e <- d :: PlainKey(e.key)
    ensures Loads(Dumps(PDict(d))) == Some(PDict(Reread(d)))
    ensures Get(Reread(d), k) == match Get(d, k) case None => None case Some(v) => Some(PyValue(PyTree(v)))
  {
    var ms := PyMembersOf(d);
    RereadKeys(d);
    assert forall e <- d :: InBmp(e.key);
    FromDistinct(PyPairs(ms));
    GetOf(ms, k);
    FindPrinted(d, k);
    LoadsDumps(PDict(d));
    DictValue(d);
  }

  /** `Plain` keys at the top of every ANNOUNCE. */
  lemma AnnounceKeysPlain(a: About, qid: Option<Str>, meta: Option<Dict>)
    ensures forall e <- AnnounceOf(a, qid, meta) :: PlainKey(e.key)
  {
    PlainKeys();
    hide PlainKey, L;
    HeadKeysPlain(a);
    hide Head;
  }

  lemma HeadKeysPlain(a: About)
    ensures forall e <- Head(a) :: PlainKey(e.key)
  {
    PlainKeys();
    hide PlainKey, L;
  }

  lemma AnnounceReal(a: About, qid: Option<Str>, meta: Option<Dict>)
    requires RealDict(meta)
    ensures RealEntries(AnnounceOf(a, qid, meta)) && DistinctKeys(AnnounceOf(a, qid, meta))
  {
    AnnounceDict(a, qid, meta);
    RealEach(AnnounceOf(a, qid, meta));
    hide AnnounceOf;
  }

  lemma StringReread(s: Str)
    ensures PyValue(PyTree(PStr(s))) == PStr(PyStr(PyItems(s)))
    ensures NoPairs(s) ==> PyStr(PyItems(s)) == s
  {
    PyStrBack(s);
  }

  /** A Python ANNOUNCE, read back, is one with the same `qid` as read back. */
  lemma PyAnnounceReread(a: About, qid: Option<Str>, meta: Option<Dict>)
    requires RealDict(meta)
    ensures var m := AnnounceOf(a, qid, meta);
      && Loads(Dumps(PDict(m))) == Some(PDict(Reread(m)))
      && Get(Reread(m), K_TYPE) == Some(PStr(ANNOUNCE))
      && Get(Reread(m), K_QID) == (match qid case None => None case Some(q) => Some(PStr(PyStr(PyItems(q)))))
      && Get(Reread(m), K_ID) == Some(PStr(PyStr(PyItems(a.id))))
  {
    var m := AnnounceOf(a, qid, meta);
    AnnounceKeysPlain(a, qid, meta);
    AnnounceReal(a, qid, meta);
    AnnounceFields(a, qid, meta);
    HeadFields(a);
    AsciiWord(ANNOUNCE);
    Names();
    hide L, Get, AnnounceOf, Head, Reread, PyItems, PyStr, Loads, Dumps, PyTree, PyValue, PlainKey, RealEntries,
         DistinctKeys;
    RereadField(m, K_TYPE);
    RereadField(m, K_QID);
    RereadField(m, K_ID);
    StringReread(ANNOUNCE);
    StringReread(a.id);
    if qid.Some? { StringReread(qid.value); }
  }

  lemma AsciiWord(w: Bytes)
    ensures Ascii(w) ==> NoPairs(w)
  {
    if Ascii(w) { AsciiSimple(w); }
  }

  /** A Python responder does not answer a Python ANNOUNCE. */
  lemma PyIgnoresPy(a: About, qid: Option<Str>, meta: Option<Dict>, own: Dict, lib: Lib)
    requires RealDict(meta)
    ensures PyAnswer(Dumps(PDict(AnnounceOf(a, qid, meta))), own, lib).Silent?
  {
    var data := Dumps(PDict(AnnounceOf(a, qid, meta)));
    PyAnnounceReread(a, qid, meta);
    Names();
    hide L, Get, AnnounceOf, Reread, Loads, Dumps, ValidMessage, MatchesFilter;
    if |data| <= MAX_DATAGRAM { Whole(data); }
  }

  /** A Python responder does not answer a C++ ANNOUNCE. */
  lemma PyIgnoresCpp(me: Self, qid: Option<Bytes>, show: Show, own: Dict, lib: Lib)
    requires MapKeys(me.opt.meta)
    ensures PyAnswer(AnnounceText(me, qid, show), own, lib).Silent?
  {
    var data := AnnounceText(me, qid, show);
    PythonDecodesAnnounce(me, qid, show);
    AnnounceValid(AboutOf(me), QidChars(qid), Some(MetaDict(me.opt.meta)));
    Names();
    hide L, Get, AnnounceText, AnnounceOf, MatchesFilter, ValidMessage, Loads, Utf8Self;
    if |data| <= MAX_DATAGRAM { Whole(data); }
  }

  /** A C++ responder does not answer a Python ANNOUNCE. */
  lemma CppIgnoresPy(a: About, qid: Option<Str>, meta: Option<Dict>, o: Options, stod: Stod, glob: Glob)
    requires RealDict(meta) && Encoded(AnnounceOf(a, qid, meta)).Some?
    ensures CppAnswer(Dumps(PDict(AnnounceOf(a, qid, meta))), o, stod, glob).Silent?
  {
    var m := AnnounceOf(a, qid, meta);
    var t, data := PyTree(PDict(m)), Dumps(PDict(m));
    AnnounceKeysPlain(a, qid, meta);
    AnnounceReal(a, qid, meta);
    AnnounceFields(a, qid, meta);
    HeadFields(a);
    Names();
    PyTreeOk(PDict(m));
    PlainText(t, AnyNumber());
    SameDerivation(data, t, Finite(stod));
    hide L, Get, AnnounceOf, Head, Wf, PText, RealEntries, DistinctKeys, First, MemberValues, PyMembersOf, Text,
         CppMatches, AsString, RealDict;
    if PText(data, Finite(stod)).Err? {
      Silence(data, o, stod, glob);
    } else {
      forall e | e in m ensures InBmp(e.key) { NoPairsOf(e.key); }
      hide PlainKey, InBmp;
      TypedAnnounce(data, m, o, stod, glob);
    }
  }

  lemma TypedAnnounce(data: Bytes, m: Dict, o: Options, stod: Stod, glob: Glob)
    requires |data| <= MAX_DATAGRAM && PText(data, Finite(stod)) == Ok(PyTree(PDict(m)), [])
    requires Get(m, K_TYPE) == Some(PStr(ANNOUNCE)) && forall e <- m :: InBmp(e.key)
    ensures CppAnswer(data, o, stod, glob).Silent?
  {
    var t := PyTree(PDict(m));
    Names();
    Whole(data);
    hide L, Get, PText, First, MemberValues, CppMatches, InBmp;
    NotEmptyText(data, Finite(stod));
    PrintedField(m, K_TYPE, ANNOUNCE, stod);
    CppReads(data, t, o, stod, glob);
  }

  lemma {:induction false} FirstAt(o: seq<Field>, i: nat)
    requires i < |o| && forall j | 0 <= j < i :: o[j].key != o[i].key
    ensures First(o, o[i].key) == Some(o[i].val)
  {
    if i > 0 { FirstAt(o[1..], i - 1); }
  }

  lemma AnnounceType(me: Self, qid: Option<Bytes>)
    ensures Lookup(AnnounceObject(me, qid), K_TYPE) == Some(Str(ANNOUNCE))
  {
    var o := AnnounceObject(me, qid).o;
    Names();
    hide L, QidField, MetaField;
    assert o[0] == Field(K_PROTO, Str(PROTO)) && o[1] == Field(K_TYPE, Str(ANNOUNCE));
    FirstAt(o, 1);
  }

  /** A C++ responder does not answer a C++ ANNOUNCE, not even one its buffer cuts short. */
  lemma CppIgnoresCpp(me: Self, qid: Option<Bytes>, show: Show, o: Options, stod: Stod, glob: Glob)
    ensures CppAnswer(AnnounceText(me, qid, show), o, stod, glob).Silent?
  {
    var v, data := AnnounceObject(me, qid), AnnounceText(me, qid, show);
    AnnounceEach(me, qid);
    RoundTripDoubleFree(v, show, stod);
    AnnounceType(me, qid);
    Names();
    hide L, Parse, Dump, AnnounceObject, CppMatches, Lookup, CppAnswer, Utf8Self, AllUtf8;
    assert CppAnswerTo(data, o, stod, glob).Silent?;
    if CppAnswer(data, o, stod, glob).Reply? { CutAnswersAlike(data, o, stod, glob); }
  }
}
