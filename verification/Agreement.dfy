/** The Python and the C++ responder, given the same datagram. */
module Agreement {
  import opened Bytes
  import opened Grammar
  import opened Descent
  import opened DescentProofs
  import opened CppJson
  import opened CppMessages
  import opened CppToPython
  import opened PyText
  import opened PyJson
  import opened Protocol
  import opened ProtocolProofs
  import opened Utf8

  // ---- one derivation, two readings ----

  lemma {:induction false} AnyNumberWf(t: Tree, ok: Bytes -> bool)
    requires Wf(t, ok)
    ensures Wf(t, AnyNumber())
    decreases t, 0
  {
    match t
    case TArr(_, es) => AnyNumberElems(es, ok);
    case TObj(_, ms) => AnyNumberMembers(ms, ok);
    case _ =>
  }

  lemma {:induction false} AnyNumberElems(es: seq<Elem>, ok: Bytes -> bool)
    requires ElemsWf(es, ok)
    ensures ElemsWf(es, AnyNumber())
    decreases es, 1
  {
    if es != [] {
      AnyNumberWf(es[0].t, ok);
      AnyNumberElems(es[1..], ok);
    }
  }

  lemma {:induction false} AnyNumberMembers(ms: seq<Member>, ok: Bytes -> bool)
    requires MembersWf(ms, ok)
    ensures MembersWf(ms, AnyNumber())
    decreases ms, 1
  {
    if ms != [] {
      AnyNumberWf(ms[0].val.t, ok);
      AnyNumberMembers(ms[1..], ok);
    }
  }

  /** A text Python parses is parsed by C++ iff `stod` can read the numbers that need it, and
      then with the same derivation. */
  lemma SameDerivation(s: Bytes, t: Tree, ok: Bytes -> bool)
    requires PText(s, AnyNumber()) == Ok(t, [])
    ensures Wf(t, ok) ==> PText(s, ok) == Ok(t, [])
    ensures !Wf(t, ok) ==> PText(s, ok).Err?
  {
    hide PText, Wf, Text;
    AcceptsIffDerives(s, t, AnyNumber());
    AcceptsIffDerives(s, t, ok);
    if PText(s, ok).Ok? {
      var u := PText(s, ok).v;
      AcceptsIffDerives(s, u, ok);
      AnyNumberWf(u, ok);
      AcceptsIffDerives(s, u, AnyNumber());
    }
  }

  // ---- keys ----

  predicate Decodes(items: seq<Item>) { Decode(ItemsValue(items), false).Some? }

  /** Both languages compare a string with an ASCII constant alike, however it is escaped. */
  lemma SameAscii(items: seq<Item>, k: Bytes)
    requires Decodes(items) && Ascii(k)
    ensures PyStr(items) == k <==> ItemsValue(items) == k
  {
    var us := Decode(ItemsValue(items), false).value;
    if PyStr(items) == k {
      JoinSmall(us);
      EncodeDecode(ItemsValue(items), false);
      AsciiEncode(k);
    }
    if ItemsValue(items) == k {
      AsciiDecode(k, false);
      JoinId(k);
    }
  }

  function FindMember(ms: seq<Member>, k: Bytes): Option<Tree> {
    if ms == [] then None
    else if ItemsValue(ms[0].key) == k then Some(ms[0].val.t)
    else FindMember(ms[1..], k)
  }

  lemma {:induction false} FirstOf(ms: seq<Member>, k: Bytes, stod: Stod)
    ensures First(MemberValues(ms, stod), k) ==
            match FindMember(ms, k) case None => None case Some(t) => Some(Value(t, stod))
  {
    hide Value, ItemsValue;
    if ms != [] {
      FirstOf(ms[1..], k, stod);
      TailOfCons(MemberValues(ms, stod)[0], MemberValues(ms[1..], stod));
    }
  }

  lemma {:induction false} GetOf(ms: seq<Member>, k: Bytes)
    requires Ascii(k) && forall m <- ms :: Decodes(m.key)
    ensures Get(PyPairs(ms), k) ==
            match FindMember(ms, k) case None => None case Some(t) => Some(PyValue(t))
  {
    hide PyValue, ItemsValue, PyStr, Decodes;
    if ms != [] {
      SameAscii(ms[0].key, k);
      GetOf(ms[1..], k);
      TailOfCons(PyPairs(ms)[0], PyPairs(ms[1..]));
    }
  }

  lemma {:induction false} StringsIn(ms: seq<Member>)
    ensures forall m <- ms :: m.key in MemberStrings(ms) && Strings(m.val.t) <= MemberStrings(ms)
  {
    if ms != [] {
      StringsIn(ms[1..]);
      assert forall m <- ms :: m == ms[0] || m in ms[1..];
    }
  }

  lemma {:induction false} FoundMember(ms: seq<Member>, k: Bytes)
    requires FindMember(ms, k).Some?
    ensures exists m <- ms :: m.val.t == FindMember(ms, k).value
  {
    if ItemsValue(ms[0].key) != k {
      FoundMember(ms[1..], k);
      var m :| m in ms[1..] && m.val.t == FindMember(ms[1..], k).value;
      assert m in ms;
    } else {
      assert ms[0] in ms;
    }
  }

  // ---- patterns ----

  predicate NoNul(s: Str) { forall i | 0 <= i < |s| :: s[i] != 0 }

  /** No escaped surrogate pair: both languages read the same code points. */
  predicate Unpaired(items: seq<Item>) {
    Decodes(items) && NoPairs(Decode(ItemsValue(items), false).value)
  }

  lemma SameString(items: seq<Item>)
    requires Unpaired(items)
    ensures Encode(PyStr(items)) == ItemsValue(items)
  {
    EncodeDecode(ItemsValue(items), false);
    JoinId(Decode(ItemsValue(items), false).value);
  }

  lemma {:induction false} WholeCStr(s: Bytes)
    requires NoNul(s)
    ensures CStr(s) == s
  {
    if s != [] {
      WholeCStr(s[1..]);
      HeadTail(s);
    }
  }

  lemma {:induction false} EncodeNoNul(cs: Str)
    ensures NoNul(Encode(cs)) <==> NoNul(cs)
  {
    if cs != [] {
      EncodeNoNul(cs[1..]);
      var a, b := EncodeOne(cs[0]), Encode(cs[1..]);
      assert NoNul(a + b) <==> NoNul(a) && NoNul(b) by {
        assert forall i | 0 <= i < |b| :: b[i] == (a + b)[|a| + i];
        assert forall i | 0 <= i < |a| :: a[i] == (a + b)[i];
      }
      if cs[0] == 0 { assert a[0] == 0; } else { assert forall i | 0 <= i < |a| :: a[i] != 0; }
      assert NoNul(cs) <==> cs[0] != 0 && NoNul(cs[1..]) by {
        assert forall i | 0 <= i < |cs[1..]| :: cs[1..][i] == cs[i + 1];
      }
    }
  }

  /** The two libraries match alike, C++ on the UTF-8 bytes of what Python matches. */
  ghost predicate GlobsAgree(lib: Lib, glob: Glob) {
    forall p: Str, v: Str | NoNul(p) && NoNul(v) :: glob(Encode(p), Encode(v)) == lib.fnmatch(v, p)
  }

  /** A field the filter tests: UTF-8, and without NUL. */
  predicate FieldOk(s: Bytes) { IsUtf8(s) && NoNul(s) }

  /** Python's own ANNOUNCE and the C++ options describe the same application. */
  predicate SameService(own: Dict, o: Options) {
    && FieldOk(o.app) && FieldOk(o.name) && FieldOk(o.host)
    && Get(own, K_APP) == Some(PStr(Chars(o.app))) && Get(own, K_NAME) == Some(PStr(Chars(o.name)))
    && Get(own, K_HOST) == Some(PStr(Chars(o.host)))
  }

  lemma SameMatch(items: seq<Item>, value: Bytes, lib: Lib, glob: Glob)
    requires GlobsAgree(lib, glob) && FieldOk(value) && Unpaired(items) && NoNul(ItemsValue(items))
    ensures glob(CStr(ItemsValue(items)), CStr(value)) == lib.fnmatch(Chars(value), PyStr(items))
  {
    WholeCStr(ItemsValue(items));
    WholeCStr(value);
    SameString(items);
    CharsBack(value);
    EncodeNoNul(PyStr(items));
    EncodeNoNul(Chars(value));
    hide Encode, PyStr, Chars, NoNul, ItemsValue, Unpaired;
  }

  // ---- filters ----

  predicate PatternsOk(fms: seq<Member>) {
    forall m <- fms :: m.val.t.TStr? ==> Unpaired(m.val.t.items) && NoNul(ItemsValue(m.val.t.items))
  }

  /** What one key of a validated filter asks of a value. */
  predicate KeyAllows(d: Dict, key: Str, value: Str, lib: Lib) {
    match Get(d, key)
    case Some(PStr(pattern)) => lib.fnmatch(value, pattern)
    case _ => true
  }

  lemma PyMatches(own: Dict, d: Dict, lib: Lib)
    requires DistinctKeys(d) && ValidFilter(PDict(d))
    ensures MatchesFilter(own, PDict(d), lib) <==>
            KeyAllows(d, K_APP, Shown(own, K_APP, lib), lib) && KeyAllows(d, K_NAME, Shown(own, K_NAME, lib), lib)
            && KeyAllows(d, K_HOST, Shown(own, K_HOST, lib), lib)
  {
    hide Shown, L;
    forall e | e in d ensures Get(d, e.key) == Some(e.val) {
      var i :| 0 <= i < |d| && d[i] == e;
      GetAt(d, i);
    }
    forall k: Str | Get(d, k).Some? ensures Entry(k, Get(d, k).value) in d {
      var i := GetFound(d, k);
    }
    hide Get;
  }

  lemma CppKey(fms: seq<Member>, pad: Bytes, key: Bytes, value: Bytes, lib: Lib, glob: Glob, stod: Stod)
    requires GlobsAgree(lib, glob) && FieldOk(value) && PatternsOk(fms) && Ascii(key)
    requires forall m <- fms :: Decodes(m.key) && m.val.t.TStr?
    ensures CheckKey(Value(TObj(pad, fms), stod), key, value, glob) == KeyAllows(PyPairs(fms), key, Chars(value), lib)
  {
    hide Chars, First, Get, ItemsValue, PyStr, CStr, GlobsAgree, MemberValues, PyPairs, FieldOk, Unpaired, Decodes;
    FirstOf(fms, key, stod);
    GetOf(fms, key);
    if FindMember(fms, key).Some? {
      FoundMember(fms, key);
      var t := FindMember(fms, key).value;
      assert t.TStr?;
      SameMatch(t.items, value, lib, glob);
    }
  }

  lemma {:induction false} FiltersAgree(pad: Bytes, fms: seq<Member>, own: Dict, o: Options, lib: Lib, glob: Glob,
                                        stod: Stod)
    requires SameService(own, o) && GlobsAgree(lib, glob) && PatternsOk(fms)
    requires DistinctKeys(PyPairs(fms)) && ValidFilter(PDict(PyPairs(fms)))
    requires forall m <- fms :: Decodes(m.key)
    ensures MatchesFilter(own, PDict(PyPairs(fms)), lib) <==> CppMatches(o, Value(TObj(pad, fms), stod), glob)
  {
    AllPatterns(fms);
    Names();
    hide MatchesFilter, KeyAllows, CheckKey, GlobsAgree, PatternsOk, ValidFilter, DistinctKeys, FieldOk, Chars, L,
         Decodes, Get, PyPairs, Value;
    PyMatches(own, PyPairs(fms), lib);
    CppKey(fms, pad, K_APP, o.app, lib, glob, stod);
    CppKey(fms, pad, K_NAME, o.name, lib, glob, stod);
    CppKey(fms, pad, K_HOST, o.host, lib, glob, stod);
    ObjectValue(pad, fms, stod);
  }

  lemma ObjectValue(pad: Bytes, ms: seq<Member>, stod: Stod)
    ensures Value(TObj(pad, ms), stod).Obj?
  {
  }

  lemma AllPatterns(fms: seq<Member>)
    requires ValidFilter(PDict(PyPairs(fms)))
    ensures forall m <- fms :: m.val.t.TStr?
  {
    PairsAre(fms);
    hide PyStr, L;
    forall m | m in fms ensures m.val.t.TStr? {
      var i :| 0 <= i < |fms| && fms[i] == m;
      assert PyPairs(fms)[i] in PyPairs(fms);
    }
  }

  lemma {:induction false} PairsAre(ms: seq<Member>)
    ensures |PyPairs(ms)| == |ms|
    ensures forall i | 0 <= i < |ms| :: PyPairs(ms)[i] == Entry(PyStr(ms[i].key), PyValue(ms[i].val.t))
  {
    hide PyStr, PyValue;
    if ms != [] { PairsAre(ms[1..]); }
  }

  // ---- the decision ----

  /** Distinct keys, in the message and in its filter. */
  predicate Distinct(t: Tree) {
    && t.TObj? && DistinctKeys(PyPairs(t.members))
    && match FindMember(t.members, K_FILTER)
       case Some(TObj(_, fms)) => DistinctKeys(PyPairs(fms))
       case _ => true
  }

  /** No escaped surrogate pair in the id. */
  predicate QidAlike(ms: seq<Member>) {
    match FindMember(ms, K_QID)
    case Some(TStr(items)) => Unpaired(items)
    case _ => true
  }

  /** No escaped surrogate pair and no NUL in a pattern. */
  predicate PatternsAlike(ms: seq<Member>) {
    match FindMember(ms, K_FILTER)
    case Some(TObj(_, fms)) => PatternsOk(fms)
    case _ => true
  }

  /** A message both languages read alike; `AgreementExact` shows that nothing less will do. */
  predicate Comparable(t: Tree) { Distinct(t) && QidAlike(t.members) && PatternsAlike(t.members) }

  /** The C++ answer that is the same as a Python one: the id echoed is the same text. */
  predicate SameAnswer(py: Answer<PyVal>, cpp: Answer<Bytes>) {
    match py
    case Silent => cpp.Silent?
    case Reply(q) => q.Some? && q.value.PStr? && cpp == Reply(Some(Encode(q.value.s)))
  }

  /** What Python makes of a datagram it accepts, in terms of its derivation. */
  lemma DecodedTree(datagram: Bytes)
    requires Decoded(datagram).Some? && PText(datagram, AnyNumber()).Ok? && Distinct(PText(datagram, AnyNumber()).v)
    ensures var ms := PText(datagram, AnyNumber()).v.members;
      && Decoded(datagram).value == PyPairs(ms)
      && (forall m <- ms :: Decodes(m.key) && (m.val.t.TStr? ==> Decodes(m.val.t.items)))
      && match FindMember(ms, K_FILTER)
         case Some(TObj(_, fms)) => forall m <- fms :: Decodes(m.key)
         case _ => true
  {
    var t := PText(datagram, AnyNumber()).v;
    var ms := t.members;
    DecodedValue(datagram);
    hide Decoded, PText, Decodes, PyStr, FromPairs, DistinctKeys, PatternsOk, Unpaired;
    FromDistinct(PyPairs(ms));
    StringsIn(ms);
    forall items <- Strings(t) ensures Decodes(items) { TextDecodes(datagram, t, items); }
    forall m | m in ms && m.val.t.TStr? ensures Decodes(m.val.t.items) { assert m.val.t.items in Strings(m.val.t); }
    if FindMember(ms, K_FILTER).Some? && FindMember(ms, K_FILTER).value.TObj? {
      FoundMember(ms, K_FILTER);
      StringsIn(FindMember(ms, K_FILTER).value.members);
    }
  }

  lemma DecodedValue(datagram: Bytes)
    requires Decoded(datagram).Some?
    ensures IsUtf8(datagram) && PText(datagram, AnyNumber()).Ok? && PText(datagram, AnyNumber()).rest == []
    ensures PyValue(PText(datagram, AnyNumber()).v) == PDict(Decoded(datagram).value)
    ensures ValidMessage(Decoded(datagram).value) && |datagram| <= MAX_DATAGRAM
  {
    hide ValidMessage, IsUtf8;
  }

  lemma TextDecodes(datagram: Bytes, t: Tree, items: seq<Item>)
    requires IsUtf8(datagram) && PText(datagram, AnyNumber()) == Ok(t, []) && items in Strings(t)
    ensures Decodes(items)
  {
    StringsDecode(datagram, t, items);
  }

  /** A string field is tested against a constant alike. */
  lemma SameField(ms: seq<Member>, k: Bytes, word: Bytes, stod: Stod)
    requires Ascii(k) && Ascii(word) && word != []
    requires forall m <- ms :: Decodes(m.key) && (m.val.t.TStr? ==> Decodes(m.val.t.items))
    ensures var f := First(MemberValues(ms, stod), k);
      Get(PyPairs(ms), k) == Some(PStr(word)) <==> f.Some? && AsString(f.value) == word
  {
    hide Decodes, Get, First, MemberValues, PyPairs, ItemsValue, PyStr, FromPairs;
    GetOf(ms, k);
    FirstOf(ms, k, stod);
    if FindMember(ms, k).Some? {
      FoundMember(ms, k);
      var t := FindMember(ms, k).value;
      if t.TStr? { SameAscii(t.items, word); }
    }
  }

  lemma SameQid(ms: seq<Member>, stod: Stod)
    requires forall m <- ms :: Decodes(m.key)
    requires IsStr(Get(PyPairs(ms), K_QID))
    requires QidAlike(ms)
    ensures var f := First(MemberValues(ms, stod), K_QID);
      f.Some? && AsString(f.value) == Encode(Get(PyPairs(ms), K_QID).value.s)
  {
    Names();
    hide Decodes, Get, First, MemberValues, PyPairs, ItemsValue, PyStr, FromPairs, L, Unpaired;
    GetOf(ms, K_QID);
    FirstOf(ms, K_QID, stod);
    SameString(FindMember(ms, K_QID).value.items);
  }

  lemma SameFilter(ms: seq<Member>, own: Dict, o: Options, lib: Lib, glob: Glob, stod: Stod)
    requires SameService(own, o) && GlobsAgree(lib, glob) && ValidDiscover(PyPairs(ms))
    requires forall m <- ms :: Decodes(m.key)
    requires match FindMember(ms, K_FILTER)
             case Some(TObj(_, fms)) =>
               DistinctKeys(PyPairs(fms)) && PatternsOk(fms) && forall m <- fms :: Decodes(m.key)
             case _ => true
    ensures var f := First(MemberValues(ms, stod), K_FILTER);
      MatchesFilter(own, GetOrNone(PyPairs(ms), K_FILTER), lib) <==> f.None? || CppMatches(o, f.value, glob)
  {
    Names();
    hide Decodes, Get, First, MemberValues, PyPairs, ItemsValue, PyStr, L, SameService, GlobsAgree, PatternsOk,
         DistinctKeys, CppMatches, ValidFilter;
    GetOf(ms, K_FILTER);
    FirstOf(ms, K_FILTER, stod);
    if FindMember(ms, K_FILTER).Some? {
      FilterTree(FindMember(ms, K_FILTER).value);
      var t := FindMember(ms, K_FILTER).value;
      FromDistinct(PyPairs(t.members));
      FiltersAgree(t.pad, t.members, own, o, lib, glob, stod);
    }
  }

  lemma FilterTree(t: Tree)
    requires ValidFilter(PyValue(t))
    ensures t.TObj? && PyValue(t) == PDict(FromPairs(PyPairs(t.members)))
  {
  }

  /** The decisions agree on every message Python accepts as a DISCOVER that both read alike:
      when `stod` can read the message's numbers C++ answers iff Python does, echoing the same
      id, although it never validates the filter; when it cannot, C++ stays silent. */
  lemma RespondersAgree(datagram: Bytes, own: Dict, o: Options, lib: Lib, stod: Stod, glob: Glob)
    requires Decoded(datagram).Some? && Get(Decoded(datagram).value, K_TYPE) == Some(PStr(DISCOVER))
    requires Comparable(PText(datagram, AnyNumber()).v)
    requires SameService(own, o) && GlobsAgree(lib, glob)
    ensures var t := PText(datagram, AnyNumber()).v;
      if Wf(t, Finite(stod)) then SameAnswer(PyAnswer(datagram, own, lib), CppAnswer(datagram, o, stod, glob))
      else CppAnswer(datagram, o, stod, glob).Silent?
  {
    var t := PText(datagram, AnyNumber()).v;
    DecodedValue(datagram);
    SameDerivation(datagram, t, Finite(stod));
    NotEmpty(datagram);
    hide PText, Wf, Decoded, Comparable, SameService, GlobsAgree, SameAnswer, CppAnswer, PyAnswer;
    if PText(datagram, Finite(stod)).Err? { Silence(datagram, o, stod, glob); }
    if Wf(t, Finite(stod)) {
      DecodedTree(datagram);
      AgreeOnTree(datagram, t, own, o, lib, stod, glob);
    }
  }

  lemma Silence(datagram: Bytes, o: Options, stod: Stod, glob: Glob)
    requires |datagram| <= MAX_DATAGRAM && PText(datagram, Finite(stod)).Err?
    ensures CppAnswer(datagram, o, stod, glob).Silent?
  {
    Whole(datagram);
  }

  lemma NotEmpty(datagram: Bytes)
    requires PText(datagram, AnyNumber()).Ok?
    ensures datagram != []
  {
  }

  lemma AgreeOnTree(datagram: Bytes, t: Tree, own: Dict, o: Options, lib: Lib, stod: Stod, glob: Glob)
    requires datagram != [] && |datagram| <= MAX_DATAGRAM && PText(datagram, Finite(stod)) == Ok(t, []) && Comparable(t)
    requires Decoded(datagram) == Some(PyPairs(t.members)) && ValidMessage(PyPairs(t.members))
    requires Get(PyPairs(t.members), K_TYPE) == Some(PStr(DISCOVER))
    requires forall m <- t.members :: Decodes(m.key) && (m.val.t.TStr? ==> Decodes(m.val.t.items))
    requires match FindMember(t.members, K_FILTER)
             case Some(TObj(_, fms)) => forall m <- fms :: Decodes(m.key)
             case _ => true
    requires SameService(own, o) && GlobsAgree(lib, glob)
    ensures SameAnswer(PyAnswer(datagram, own, lib), CppAnswer(datagram, o, stod, glob))
  {
    var ms := t.members;
    Names();
    assert ValidDiscover(PyPairs(ms));
    hide L, Get, MatchesFilter, CppMatches, Decoded, PText, Decodes, PyPairs, MemberValues, First, GlobsAgree,
         SameService, PatternsOk, Unpaired, DistinctKeys, Encode, ValidFilter;
    SameField(ms, K_TYPE, DISCOVER, stod);
    SameField(ms, K_PROTO, PROTO, stod);
    SameFilter(ms, own, o, lib, glob, stod);
    SameQid(ms, stod);
    Whole(datagram);
    CppReads(datagram, t, o, stod, glob);
  }

  lemma Whole(datagram: Bytes)
    requires |datagram| <= MAX_DATAGRAM
    ensures datagram[..Min(|datagram|, MAX_DATAGRAM)] == datagram[..Min(|datagram|, MAX_DATAGRAM + 1)] == datagram
  {
  }

  /** `CppAnswerTo` in terms of the members of the object it parsed. */
  lemma CppReads(buf: Bytes, t: Tree, o: Options, stod: Stod, glob: Glob)
    requires buf != [] && PText(buf, Finite(stod)) == Ok(t, []) && t.TObj?
    ensures var fs := MemberValues(t.members, stod);
      var kind, proto, filter, qid := First(fs, K_TYPE), First(fs, K_PROTO), First(fs, K_FILTER), First(fs, K_QID);
      CppAnswerTo(buf, o, stod, glob) ==
        if kind.Some? && AsString(kind.value) == DISCOVER && proto.Some? && AsString(proto.value) == PROTO
           && (filter.None? || CppMatches(o, filter.value, glob))
        then Reply(match qid case None => None case Some(q) => Some(AsString(q)))
        else Silent
  {
    hide CppMatches, First, L, MemberValues;
  }
}
