/** Exactly when the two responders decide alike on the messages Python accepts. */
module AgreementExact {
  import opened Bytes
  import opened Grammar
  import opened Descent
  import opened DescentProofs
  import opened CppJson
  import opened CppMessages
  import opened CppToPython
  import opened PyText
  import opened PyJson
  import opened Protocol
  import opened ProtocolProofs
  import opened Agreement
  import opened ClientQueries
  import opened ClientResult
  import opened Refused
  import opened Utf8

  // ---- strings ----

  /** Both languages read the same string iff it has no escaped surrogate pair. */
  lemma SameStringIff(items: seq<Item>)
    requires Decodes(items)
    ensures Encode(PyStr(items)) == ItemsValue(items) <==> Unpaired(items)
  {
    var us := Decode(ItemsValue(items), false).value;
    EncodeDecode(ItemsValue(items), false);
    if Encode(PyStr(items)) == ItemsValue(items) {
      EncodeInjective(PyStr(items), us);
      JoinNoPairs(us);
    }
    if Unpaired(items) { SameString(items); }
  }

  lemma {:induction false} CStrNoNul(s: Bytes)
    ensures NoNul(CStr(s))
  {
    if s != [] && s[0] != 0 {
      var t := CStr(s[1..]);
      CStrNoNul(s[1..]);
      assert forall i | 1 <= i < |CStr(s)| :: CStr(s)[i] == t[i - 1];
    }
  }

  lemma {:induction false} JoinNoNul(us: Str)
    requires NoNul(Join(us))
    ensures NoNul(us)
  {
    if us != [] {
      var n := if |us| > 1 && PairAt(us, 0) then 2 else 1;
      var rest := Join(us[n..]);
      assert Join(us) == [Join(us)[0]] + rest;
      assert forall i | 0 <= i < |rest| :: rest[i] == Join(us)[i + 1];
      JoinNoNul(us[n..]);
      assert us[0] != 0 by { assert Join(us)[0] != 0; }
      assert forall i | n <= i < |us| :: us[i] == us[n..][i - n];
    }
  }

  /** `fnmatch` is given the same pattern iff it has no escaped surrogate pair and no NUL. */
  lemma SamePatternIff(items: seq<Item>)
    requires Decodes(items)
    ensures CStr(ItemsValue(items)) == Encode(PyStr(items)) <==> Unpaired(items) && NoNul(ItemsValue(items))
  {
    var s, p := ItemsValue(items), PyStr(items);
    var us := Decode(s, false).value;
    if CStr(s) == Encode(p) {
      CStrNoNul(s);
      EncodeNoNul(p);
      JoinNoNul(us);
      EncodeDecode(s, false);
      EncodeNoNul(us);
      WholeCStr(s);
      SameStringIff(items);
    }
    if Unpaired(items) && NoNul(s) {
      WholeCStr(s);
      SameStringIff(items);
    }
  }

  // ---- what each language reads, whatever keys are repeated ----

  /** A DISCOVER Python accepts, its derivation, and the dict Python reads. */
  ghost predicate Reads(datagram: Bytes, t: Tree, d: Dict) {
    && Decoded(datagram) == Some(d) && Get(d, K_TYPE) == Some(PStr(DISCOVER))
    && PText(datagram, AnyNumber()) == Ok(t, []) && t.TObj?
  }

  /** The pattern Python tests under `k`: of repeated keys the last counts. */
  function PyPattern(d: Dict, k: Str): Option<Str> {
    match Get(d, K_FILTER)
    case Some(PDict(f)) => (match Get(f, k) case Some(PStr(p)) => Some(p) case _ => None)
    case _ => None
  }

  /** The pattern C++ tests under `k`: of repeated keys the first counts. */
  function CppPattern(ms: seq<Member>, k: Bytes): Option<Bytes> {
    match FindMember(ms, K_FILTER)
    case Some(TObj(_, fms)) =>
      (match FindMember(fms, k) case Some(TStr(items)) => Some(CStr(ItemsValue(items))) case _ => None)
    case _ => None
  }

  /** The id C++ echoes: the first, and nothing for one that is not a string. */
  function CppEcho(ms: seq<Member>): Option<Bytes> {
    match FindMember(ms, K_QID)
    case None => None
    case Some(TStr(items)) => Some(ItemsValue(items))
    case Some(_) => Some([])
  }

  function Utf8Of(p: Option<Str>): Option<Bytes> { if p.Some? then Some(Encode(p.value)) else None }

  ghost predicate SamePatterns(ms: seq<Member>, d: Dict) {
    forall k: Str | IsFilterKey(k) :: CppPattern(ms, k) == Utf8Of(PyPattern(d, k))
  }

  /** C++, which looks at the first of equal keys, finds a DISCOVER of this protocol with the id
      and the patterns Python finds. */
  ghost predicate SameReading(ms: seq<Member>, d: Dict) {
    && TextIs(FindMember(ms, K_TYPE), DISCOVER) && TextIs(FindMember(ms, K_PROTO), PROTO)
    && IsStr(Get(d, K_QID)) && CppEcho(ms) == Some(Encode(Get(d, K_QID).value.s))
    && SamePatterns(ms, d)
  }

  lemma ReadsTree(datagram: Bytes, t: Tree, d: Dict)
    requires Reads(datagram, t, d)
    ensures t.TObj? && d == FromPairs(PyPairs(t.members)) && ValidMessage(d) && ValidDiscover(d)
    ensures datagram != [] && |datagram| <= MAX_DATAGRAM
  {
    DecodedValue(datagram);
    NotEmpty(datagram);
    Names();
    assert DISCOVER != ANNOUNCE;
    hide L, Get, Decoded, PText, ValidDiscover, ValidAnnounce, FromPairs;
  }

  /** A dict Python read has no key twice. */
  lemma FilterOnce(ms: seq<Member>)
    ensures match Get(FromPairs(PyPairs(ms)), K_FILTER) case Some(PDict(f)) => DistinctKeys(f) case _ => true
  {
    var ps, d := PyPairs(ms), FromPairs(PyPairs(ms));
    hide L, FromPairs, Get, DistinctKeys, PyPairs;
    LastWins(ps, K_FILTER);
    if Get(d, K_FILTER).Some? {
      var i := GetFound(d, K_FILTER);
      assert d[i] in d;
      var k :| 0 <= k < |ps| && ps[k] == d[i];
      PairsAre(ms);
      ValueOnce(ms[k].val.t);
    }
  }

  lemma ValueOnce(t: Tree)
    ensures PyValue(t).PDict? ==> DistinctKeys(PyValue(t).d)
  {
    if t.TObj? { LastWins(PyPairs(t.members), []); }
    hide FromPairs, DistinctKeys, PyStr, PyPairs;
  }

  // ---- the two decisions ----

  predicate Lets(p: Option<Bytes>, value: Bytes, glob: Glob) { p.Some? ==> glob(p.value, value) }

  predicate LetsAll(p: Str -> Option<Bytes>, o: Options, glob: Glob) {
    Lets(p(K_APP), o.app, glob) && Lets(p(K_NAME), o.name, glob) && Lets(p(K_HOST), o.host, glob)
  }

  function PyPatterns(d: Dict): Str -> Option<Bytes> { (k: Str) => Utf8Of(PyPattern(d, k)) }

  function CppPatterns(ms: seq<Member>): Str -> Option<Bytes> {
    (k: Str) => if IsFilterKey(k) then CppPattern(ms, k) else None
  }

  /** The library matches as `glob` does. */
  predicate MatchesAs(p: Option<Str>, value: Bytes, lib: Lib, glob: Glob) {
    p.Some? ==> lib.fnmatch(Chars(value), p.value) == glob(Encode(p.value), value)
  }

  lemma PyKey(f: Dict, k: Str, p: Option<Str>, value: Bytes, lib: Lib, glob: Glob)
    requires p == (match Get(f, k) case Some(PStr(s)) => Some(s) case _ => None) && MatchesAs(p, value, lib, glob)
    ensures KeyAllows(f, k, Chars(value), lib) <==> Lets(Utf8Of(p), value, glob)
  {
  }

  lemma PyFilter(d: Dict, own: Dict, o: Options, lib: Lib, glob: Glob)
    requires ValidDiscover(d) && SameService(own, o)
    requires match Get(d, K_FILTER) case Some(PDict(f)) => DistinctKeys(f) case _ => true
    requires MatchesAs(PyPattern(d, K_APP), o.app, lib, glob) && MatchesAs(PyPattern(d, K_NAME), o.name, lib, glob)
    requires MatchesAs(PyPattern(d, K_HOST), o.host, lib, glob)
    ensures MatchesFilter(own, GetOrNone(d, K_FILTER), lib) <==> LetsAll(PyPatterns(d), o, glob)
  {
    match Get(d, K_FILTER) {
      case Some(PDict(f)) =>
        PyMatches(own, f, lib);
        hide Get, L, KeyAllows, Lets, MatchesAs, MatchesFilter, DistinctKeys, ValidFilter, FieldOk;
        PyKey(f, K_APP, PyPattern(d, K_APP), o.app, lib, glob);
        PyKey(f, K_NAME, PyPattern(d, K_NAME), o.name, lib, glob);
        PyKey(f, K_HOST, PyPattern(d, K_HOST), o.host, lib, glob);
      case _ =>
    }
  }

  lemma PyDecides(datagram: Bytes, t: Tree, d: Dict, own: Dict, lib: Lib)
    requires Reads(datagram, t, d)
    ensures PyAnswer(datagram, own, lib) ==
            if MatchesFilter(own, GetOrNone(d, K_FILTER), lib) then Reply(Get(d, K_QID)) else Silent
  {
    ReadsTree(datagram, t, d);
    Whole(datagram);
    hide L, Get, Decoded, PText, MatchesFilter, ValidMessage, ValidDiscover;
  }

  lemma EchoOf(ms: seq<Member>, stod: Stod)
    ensures CppEcho(ms) ==
            match First(MemberValues(ms, stod), K_QID) case None => None case Some(q) => Some(AsString(q))
  {
    FirstOf(ms, K_QID, stod);
    hide First, MemberValues, FindMember, ItemsValue, L;
  }

  lemma CppDecides(datagram: Bytes, t: Tree, d: Dict, o: Options, stod: Stod, glob: Glob)
    requires Reads(datagram, t, d)
    ensures CppAnswer(datagram, o, stod, glob) ==
            if Wf(t, Finite(stod)) && CppTakes(t, o, glob) then Reply(CppEcho(t.members)) else Silent
  {
    ReadsTree(datagram, t, d);
    SameDerivation(datagram, t, Finite(stod));
    Whole(datagram);
    hide L, Get, Decoded, PText, ValidMessage, ValidDiscover, CppTakes, First, MemberValues, Wf, FromPairs, CppMatches;
    if Wf(t, Finite(stod)) {
      TakesTree(datagram, t, o, stod, glob);
      CppReads(datagram, t, o, stod, glob);
      EchoOf(t.members, stod);
    } else {
      Agreement.Silence(datagram, o, stod, glob);
    }
  }

  lemma CppFilter(ms: seq<Member>, o: Options, glob: Glob)
    requires FieldOk(o.app) && FieldOk(o.name) && FieldOk(o.host)
    ensures FilterLets(FindMember(ms, K_FILTER), o, glob) <==> LetsAll(CppPatterns(ms), o, glob)
  {
    WholeCStr(o.app);
    WholeCStr(o.name);
    WholeCStr(o.host);
    hide L, FindMember, CStr, ItemsValue, FieldOk;
  }

  /** For all applications both describe alike and all libraries that match alike, the two
      responders give the same answer. */
  ghost predicate AlwaysAlike(datagram: Bytes, stod: Stod) {
    forall own: Dict, o: Options, lib: Lib, glob: Glob | SameService(own, o) && GlobsAgree(lib, glob) ::
      SameAnswer(PyAnswer(datagram, own, lib), CppAnswer(datagram, o, stod, glob))
  }

  // ---- alike reading is enough ----

  lemma AgreesHere(k: Str, ms: seq<Member>, d: Dict, value: Bytes, lib: Lib, glob: Glob)
    requires IsFilterKey(k) && SamePatterns(ms, d) && GlobsAgree(lib, glob) && FieldOk(value)
    ensures MatchesAs(PyPattern(d, k), value, lib, glob)
  {
    var p := PyPattern(d, k);
    if p.Some? {
      assert CppPattern(ms, k) == Some(Encode(p.value));
      NulFreePattern(ms, k);
      CharsBack(value);
      EncodeNoNul(p.value);
      EncodeNoNul(Chars(value));
    }
  }

  lemma NulFreePattern(ms: seq<Member>, k: Bytes)
    ensures CppPattern(ms, k).Some? ==> NoNul(CppPattern(ms, k).value)
  {
    if CppPattern(ms, k).Some? {
      CStrNoNul(ItemsValue(FindMember(FindMember(ms, K_FILTER).value.members, k).value.items));
    }
    hide L, FindMember, ItemsValue, CStr;
  }

  lemma ReadAlike(datagram: Bytes, t: Tree, d: Dict, own: Dict, o: Options, lib: Lib, stod: Stod, glob: Glob)
    requires Reads(datagram, t, d) && Wf(t, Finite(stod)) && SameReading(t.members, d)
    requires SameService(own, o) && GlobsAgree(lib, glob)
    ensures SameAnswer(PyAnswer(datagram, own, lib), CppAnswer(datagram, o, stod, glob))
  {
    hide L, Get, FindMember, CppEcho, PyPattern, CppPattern, MatchesFilter, FilterLets, ValidDiscover, ValidMessage, Wf,
         FieldOk, GlobsAgree, FromPairs, MatchesAs, DistinctKeys, TextIs, CppAnswer, PyAnswer, SamePatterns, Encode;
    var ms := t.members;
    hide Reads;
    ReadsTree(datagram, t, d);
    PyDecides(datagram, t, d, own, lib);
    CppDecides(datagram, t, d, o, stod, glob);
    FilterOnce(ms);
    AgreesHere(K_APP, ms, d, o.app, lib, glob);
    AgreesHere(K_NAME, ms, d, o.name, lib, glob);
    AgreesHere(K_HOST, ms, d, o.host, lib, glob);
    PyFilter(d, own, o, lib, glob);
    CppFilter(ms, o, glob);
    SameLets(ms, d, o, glob);
  }

  lemma SameLets(ms: seq<Member>, d: Dict, o: Options, glob: Glob)
    requires SamePatterns(ms, d)
    ensures LetsAll(CppPatterns(ms), o, glob) <==> LetsAll(PyPatterns(d), o, glob)
  {
    hide L, CppPattern, PyPattern, Utf8Of, Lets;
  }

  // ---- an application whose three fields differ, and libraries that single one out ----

  const A: Bytes := [0x61]
  const B: Bytes := [0x62]
  const C: Bytes := [0x63]

  function ProbeOptions(): Options { Options(B, A, 0, [], [], [], C) }

  function ProbeDict(): Dict { [Entry(K_APP, PStr(A)), Entry(K_NAME, PStr(B)), Entry(K_HOST, PStr(C))] }

  /** The probe's field under a filter key. */
  function FieldOf(key: Str): Bytes {
    if key == K_APP then A else if key == K_NAME then B else C
  }

  lemma ProbeFields()
    ensures FieldOf(K_APP) == A && FieldOf(K_NAME) == B && FieldOf(K_HOST) == C
    ensures K_APP != K_NAME && K_NAME != K_HOST && K_APP != K_HOST
  {
    Names();
    hide L;
  }

  lemma OneLetter(b: byte)
    requires 0 < b < 0x80
    ensures FieldOk([b]) && Chars([b]) == [b] && CStr([b]) == [b] && Encode([b]) == [b]
  {
    AsciiDecode([b], true);
    AsciiEncode([b]);
    WholeCStr([b]);
  }

  lemma ProbeService()
    ensures SameService(ProbeDict(), ProbeOptions())
    ensures Get(ProbeDict(), K_APP) == Some(PStr(A)) && Get(ProbeDict(), K_NAME) == Some(PStr(B))
    ensures Get(ProbeDict(), K_HOST) == Some(PStr(C))
  {
    ProbeFields();
    OneLetter(0x61);
    OneLetter(0x62);
    OneLetter(0x63);
    hide L, Get, FieldOk;
    GetAt(ProbeDict(), 0);
    GetAt(ProbeDict(), 1);
    GetAt(ProbeDict(), 2);
  }

  /** Everything matches, except pattern `q` on value `v`. */
  function AllBut(q: Bytes, v: Bytes): Glob { (a: Bytes, b: Bytes) => !(a == q && b == v) }

  /** Everything matches. */
  function Anything(): Glob { (a: Bytes, b: Bytes) => true }

  /** The Python library that matches as `glob` does. */
  function LibOf(glob: Glob): Lib { Lib((v: Str, p: Str) => glob(Encode(p), Encode(v)), (x: PyVal) => []) }

  lemma ProbeMatches(p: Option<Str>, k: Str, glob: Glob)
    requires IsFilterKey(k)
    ensures MatchesAs(p, FieldOf(k), LibOf(glob), glob)
  {
    OneLetter(0x61);
    OneLetter(0x62);
    OneLetter(0x63);
    hide L, Encode, Chars;
  }

  /** What Python makes of the probe. */
  lemma ProbePy(datagram: Bytes, t: Tree, d: Dict, glob: Glob)
    requires Reads(datagram, t, d)
    ensures GlobsAgree(LibOf(glob), glob)
    ensures PyAnswer(datagram, ProbeDict(), LibOf(glob)) ==
            if LetsAll(PyPatterns(d), ProbeOptions(), glob) then Reply(Get(d, K_QID)) else Silent
  {
    ReadsTree(datagram, t, d);
    PyDecides(datagram, t, d, ProbeDict(), LibOf(glob));
    FilterOnce(t.members);
    ProbeService();
    ProbeFields();
    hide L, Reads, Get, MatchesFilter, ValidDiscover, ValidMessage, SameService, FromPairs, MatchesAs, DistinctKeys,
         PyAnswer, PyPattern, Encode, FieldOf, LetsAll, LibOf;
    ProbeMatches(PyPattern(d, K_APP), K_APP, glob);
    ProbeMatches(PyPattern(d, K_NAME), K_NAME, glob);
    ProbeMatches(PyPattern(d, K_HOST), K_HOST, glob);
    PyFilter(d, ProbeDict(), ProbeOptions(), LibOf(glob), glob);
    ProbeAgrees(glob);
  }

  lemma ProbeAgrees(glob: Glob)
    ensures GlobsAgree(LibOf(glob), glob)
  {
  }

  /** And what C++ makes of it. */
  lemma ProbeCpp(datagram: Bytes, t: Tree, d: Dict, stod: Stod, glob: Glob)
    requires Reads(datagram, t, d) && Wf(t, Finite(stod))
    requires TextIs(FindMember(t.members, K_TYPE), DISCOVER) && TextIs(FindMember(t.members, K_PROTO), PROTO)
    ensures CppAnswer(datagram, ProbeOptions(), stod, glob) ==
            if LetsAll(CppPatterns(t.members), ProbeOptions(), glob) then Reply(CppEcho(t.members)) else Silent
  {
    ReadsTree(datagram, t, d);
    CppDecides(datagram, t, d, ProbeOptions(), stod, glob);
    ProbeService();
    hide L, Reads, FilterLets, TextIs, LetsAll, FindMember, Wf, FromPairs, CppEcho, ValidMessage, ValidDiscover;
    CppFilter(t.members, ProbeOptions(), glob);
  }

  lemma ButLets(p: Str -> Option<Bytes>, q: Bytes, k: Str)
    requires IsFilterKey(k)
    ensures LetsAll(p, ProbeOptions(), AllBut(q, FieldOf(k))) <==> p(k) != Some(q)
  {
    ProbeFields();
    hide L;
  }

  lemma Unlike(datagram: Bytes, stod: Stod, glob: Glob)
    requires GlobsAgree(LibOf(glob), glob)
    requires !SameAnswer(PyAnswer(datagram, ProbeDict(), LibOf(glob)), CppAnswer(datagram, ProbeOptions(), stod, glob))
    ensures !AlwaysAlike(datagram, stod)
  {
    ProbeService();
    hide SameService, GlobsAgree, SameAnswer, PyAnswer, CppAnswer;
  }

  /** A pattern that is not read alike is matched differently by some library. */
  lemma PatternsMatter(datagram: Bytes, t: Tree, d: Dict, stod: Stod)
    requires Reads(datagram, t, d) && Wf(t, Finite(stod)) && !SamePatterns(t.members, d)
    requires TextIs(FindMember(t.members, K_TYPE), DISCOVER) && TextIs(FindMember(t.members, K_PROTO), PROTO)
    ensures !AlwaysAlike(datagram, stod)
  {
    var ms := t.members;
    var k: Str :| IsFilterKey(k) && CppPattern(ms, k) != Utf8Of(PyPattern(d, k));
    var py, cpp := PyPatterns(d), CppPatterns(ms);
    assert py(k) != cpp(k);
    var q := if py(k).Some? then py(k).value else cpp(k).value;
    var glob := AllBut(q, FieldOf(k));
    hide L, Reads, TextIs, FindMember, Wf, Get, PyAnswer, CppAnswer, CppEcho, PyPattern, CppPattern, LetsAll,
         FieldOf, AllBut, GlobsAgree, LibOf, PyPatterns, CppPatterns, AlwaysAlike;
    ButLets(py, q, k);
    ButLets(cpp, q, k);
    ProbePy(datagram, t, d, glob);
    ProbeCpp(datagram, t, d, stod, glob);
    Unlike(datagram, stod, glob);
  }

  /** Everything else that is not read alike shows when everything matches. */
  lemma TheRestMatters(datagram: Bytes, t: Tree, d: Dict, stod: Stod)
    requires Reads(datagram, t, d)
    requires Wf(t, Finite(stod)) && SamePatterns(t.members, d) ==> !SameReading(t.members, d)
    requires (&& Wf(t, Finite(stod)) && TextIs(FindMember(t.members, K_TYPE), DISCOVER)
              && TextIs(FindMember(t.members, K_PROTO), PROTO)) ==> SamePatterns(t.members, d)
    ensures !AlwaysAlike(datagram, stod)
  {
    ReadsTree(datagram, t, d);
    ProbePy(datagram, t, d, Anything());
    CppDecides(datagram, t, d, ProbeOptions(), stod, Anything());
    hide L, Reads, TextIs, FindMember, Wf, Get, PyAnswer, CppAnswer, CppEcho, FilterLets, SamePatterns, AlwaysAlike,
         Encode, GlobsAgree, LibOf, FromPairs, ValidFilter, ValidMessage;
    Unlike(datagram, stod, Anything());
  }

  // ---- main result ----

  /** On a message Python accepts as a DISCOVER, whatever keys it repeats, the two responders
      decide and echo alike, for every application and all libraries, iff `stod` can read every
      number that needs it and both read the same message. */
  lemma AlikeIff(datagram: Bytes, t: Tree, d: Dict, stod: Stod)
    requires Reads(datagram, t, d)
    ensures AlwaysAlike(datagram, stod) <==> Wf(t, Finite(stod)) && SameReading(t.members, d)
  {
    ReadsTree(datagram, t, d);
    hide Reads, Wf, TextIs, SamePatterns, SameAnswer, SameService, GlobsAgree, PyAnswer, CppAnswer, Get, L, CppEcho,
         FindMember, Encode, FromPairs, ValidDiscover, ValidMessage;
    if Wf(t, Finite(stod)) && SameReading(t.members, d) {
      forall own: Dict, o: Options, lib: Lib, glob: Glob | SameService(own, o) && GlobsAgree(lib, glob)
        ensures SameAnswer(PyAnswer(datagram, own, lib), CppAnswer(datagram, o, stod, glob))
      {
        ReadAlike(datagram, t, d, own, o, lib, stod, glob);
      }
    } else if Wf(t, Finite(stod)) && !SamePatterns(t.members, d) && TextIs(FindMember(t.members, K_TYPE), DISCOVER)
              && TextIs(FindMember(t.members, K_PROTO), PROTO) {
      PatternsMatter(datagram, t, d, stod);
    } else {
      TheRestMatters(datagram, t, d, stod);
    }
  }

  // ---- distinct keys ----

  /** What Python accepted and how both read it. */
  ghost predicate Accepts(datagram: Bytes, t: Tree) {
    && Decoded(datagram).Some? && Get(Decoded(datagram).value, K_TYPE) == Some(PStr(DISCOVER))
    && PText(datagram, AnyNumber()) == Ok(t, []) && Distinct(t)
  }

  lemma AcceptedTree(datagram: Bytes, t: Tree)
    requires Accepts(datagram, t)
    ensures var ms := t.members;
      && Decoded(datagram) == Some(PyPairs(ms)) && ValidMessage(PyPairs(ms)) && ValidDiscover(PyPairs(ms))
      && |datagram| <= MAX_DATAGRAM && datagram != []
      && (forall m <- ms :: Decodes(m.key) && (m.val.t.TStr? ==> Decodes(m.val.t.items)))
  {
    DecodedValue(datagram);
    DecodedTree(datagram);
    NotEmpty(datagram);
    Names();
    assert DISCOVER != ANNOUNCE;
    hide L, Get, Decoded, PText, ValidDiscover, ValidAnnounce;
  }

  lemma PyAnswers(datagram: Bytes, t: Tree, own: Dict, lib: Lib)
    requires Accepts(datagram, t)
    ensures PyAnswer(datagram, own, lib) ==
            if MatchesFilter(own, GetOrNone(PyPairs(t.members), K_FILTER), lib)
            then Reply(Get(PyPairs(t.members), K_QID)) else Silent
  {
    AcceptedTree(datagram, t);
    Whole(datagram);
    hide L, Get, Decoded, PText, MatchesFilter, PyPairs, Distinct, ValidMessage, ValidDiscover, Decodes;
  }

  lemma CppAnswers(datagram: Bytes, t: Tree, o: Options, stod: Stod, glob: Glob)
    requires Accepts(datagram, t) && Wf(t, Finite(stod))
    ensures var f := First(MemberValues(t.members, stod), K_FILTER);
      CppAnswer(datagram, o, stod, glob) ==
        if f.None? || CppMatches(o, f.value, glob)
        then Reply(match First(MemberValues(t.members, stod), K_QID)
                   case None => None case Some(q) => Some(AsString(q)))
        else Silent
  {
    AcceptedTree(datagram, t);
    SameDerivation(datagram, t, Finite(stod));
    Names();
    Whole(datagram);
    hide L, Get, Decoded, PText, CppMatches, PyPairs, Distinct, ValidDiscover, Decodes, First, MemberValues, Wf;
    SameField(t.members, K_TYPE, DISCOVER, stod);
    SameField(t.members, K_PROTO, PROTO, stod);
    CppReads(datagram, t, o, stod, glob);
  }

  lemma {:induction false} FindAt(ms: seq<Member>, i: nat, k: Bytes)
    requires i < |ms| && ItemsValue(ms[i].key) == k && forall j | 0 <= j < i :: ItemsValue(ms[j].key) != k
    ensures FindMember(ms, k) == Some(ms[i].val.t)
  {
    hide ItemsValue;
    if i > 0 { FindAt(ms[1..], i - 1, k); }
  }

  /** With distinct keys every member is found under its key. */
  lemma FindDistinct(fms: seq<Member>, i: nat, k: Bytes)
    requires i < |fms| && Ascii(k) && DistinctKeys(PyPairs(fms)) && PyStr(fms[i].key) == k
    requires forall m <- fms :: Decodes(m.key)
    ensures FindMember(fms, k) == Some(fms[i].val.t)
  {
    PairsAre(fms);
    hide PyStr, ItemsValue, Decodes, FindMember, PyPairs, PyValue;
    SameAscii(fms[i].key, k);
    forall j | 0 <= j < i ensures ItemsValue(fms[j].key) != k {
      assert PyPairs(fms)[j].key != PyPairs(fms)[i].key;
      SameAscii(fms[j].key, k);
    }
    FindAt(fms, i, k);
  }

  /** The strings of an accepted message's filter decode. */
  lemma FilterDecodes(datagram: Bytes, t: Tree)
    requires Accepts(datagram, t)
    ensures match FindMember(t.members, K_FILTER)
            case Some(TObj(_, fms)) =>
              && (forall m <- fms :: Decodes(m.key) && (m.val.t.TStr? ==> Decodes(m.val.t.items)))
              && Get(PyPairs(t.members), K_FILTER) == Some(PDict(PyPairs(fms))) && ValidFilter(PDict(PyPairs(fms)))
            case _ => true
  {
    AcceptedTree(datagram, t);
    DecodedValue(datagram);
    Names();
    GetOf(t.members, K_FILTER);
    if FindMember(t.members, K_FILTER).Some? && FindMember(t.members, K_FILTER).value.TObj? {
      var fms := FindMember(t.members, K_FILTER).value.members;
      FromDistinct(PyPairs(fms));
      FoundMember(t.members, K_FILTER);
      StringsIn(t.members);
      StringsIn(fms);
      hide L, Get, Decoded, PText, FindMember, PyPairs, ValidFilter, DistinctKeys, Decodes, ValidMessage;
      forall items | items in Strings(t) ensures Decodes(items) { TextDecodes(datagram, t, items); }
      forall m | m in fms ensures Decodes(m.key) && (m.val.t.TStr? ==> Decodes(m.val.t.items)) {
        if m.val.t.TStr? { assert m.val.t.items in Strings(m.val.t); }
      }
    }
  }

  lemma TextAlike(ms: seq<Member>, k: Bytes, word: Bytes)
    requires Ascii(k) && Ascii(word) && Get(PyPairs(ms), k) == Some(PStr(word))
    requires forall m <- ms :: Decodes(m.key) && (m.val.t.TStr? ==> Decodes(m.val.t.items))
    ensures TextIs(FindMember(ms, k), word)
  {
    GetOf(ms, k);
    FoundMember(ms, k);
    hide Get, PyPairs, FindMember, ItemsValue, PyStr, Decodes;
    SameAscii(FindMember(ms, k).value.items, word);
  }

  lemma EchoAlike(ms: seq<Member>)
    requires IsStr(Get(PyPairs(ms), K_QID))
    requires forall m <- ms :: Decodes(m.key) && (m.val.t.TStr? ==> Decodes(m.val.t.items))
    ensures CppEcho(ms) == Some(Encode(Get(PyPairs(ms), K_QID).value.s)) <==> QidAlike(ms)
  {
    Names();
    GetOf(ms, K_QID);
    FoundMember(ms, K_QID);
    hide Get, PyPairs, FindMember, ItemsValue, PyStr, Decodes, Unpaired, Encode, L;
    SameStringIff(FindMember(ms, K_QID).value.items);
  }

  /** One key of a filter without repeated keys. */
  lemma KeyAlike(fms: seq<Member>, k: Bytes)
    requires Ascii(k) && ValidFilter(PDict(PyPairs(fms)))
    requires forall m <- fms :: Decodes(m.key) && (m.val.t.TStr? ==> Decodes(m.val.t.items))
    ensures match FindMember(fms, k)
            case None => Get(PyPairs(fms), k).None?
            case Some(t) =>
              t.TStr? && Get(PyPairs(fms), k) == Some(PStr(PyStr(t.items)))
              && (CStr(ItemsValue(t.items)) == Encode(PyStr(t.items)) <==>
                  Unpaired(t.items) && NoNul(ItemsValue(t.items)))
  {
    AllPatterns(fms);
    GetOf(fms, k);
    hide Get, PyPairs, FindMember, ItemsValue, PyStr, Decodes, Unpaired, Encode, L, ValidFilter, CStr, NoNul;
    if FindMember(fms, k).Some? {
      FoundMember(fms, k);
      SamePatternIff(FindMember(fms, k).value.items);
    }
  }

  /** The filter of an accepted message, and one of its patterns that C++ sees differently. */
  lemma UnlikePattern(fms: seq<Member>) returns (i: nat, items: seq<Item>)
    requires ValidFilter(PDict(PyPairs(fms))) && !PatternsOk(fms)
    requires forall m <- fms :: Decodes(m.key) && (m.val.t.TStr? ==> Decodes(m.val.t.items))
    ensures i < |fms| && fms[i].val.t == TStr(items) && IsFilterKey(PyStr(fms[i].key))
    ensures |PyPairs(fms)| == |fms| && PyPairs(fms)[i] == Entry(PyStr(fms[i].key), PStr(PyStr(items)))
    ensures CStr(ItemsValue(items)) != Encode(PyStr(items))
  {
    hide PyStr, ItemsValue, Decodes, CStr, Encode, Unpaired, NoNul, L;
    var m :| m in fms && m.val.t.TStr? && !(Unpaired(m.val.t.items) && NoNul(ItemsValue(m.val.t.items)));
    i :| 0 <= i < |fms| && fms[i] == m;
    items := m.val.t.items;
    PairsAre(fms);
    assert PyPairs(fms)[i] in PyPairs(fms);
    SamePatternIff(items);
  }

  /** The patterns of a filter without repeated keys are read alike iff each is. */
  lemma PatternsAlikeIff(ms: seq<Member>, pad: Bytes, fms: seq<Member>)
    requires FindMember(ms, K_FILTER) == Some(TObj(pad, fms)) && ValidFilter(PDict(PyPairs(fms)))
    requires Get(PyPairs(ms), K_FILTER) == Some(PDict(PyPairs(fms))) && DistinctKeys(PyPairs(fms))
    requires forall m <- fms :: Decodes(m.key) && (m.val.t.TStr? ==> Decodes(m.val.t.items))
    ensures SamePatterns(ms, PyPairs(ms)) <==> PatternsOk(fms)
  {
    Names();
    hide Get, PyPairs, FindMember, ItemsValue, PyStr, Decodes, Unpaired, Encode, L, ValidFilter, CStr, NoNul,
         DistinctKeys;
    KeyAlike(fms, K_APP);
    KeyAlike(fms, K_NAME);
    KeyAlike(fms, K_HOST);
    if PatternsOk(fms) {
      FoundOk(fms, K_APP);
      FoundOk(fms, K_NAME);
      FoundOk(fms, K_HOST);
    } else {
      var i, items := UnlikePattern(fms);
      var k := PyStr(fms[i].key);
      FindDistinct(fms, i, k);
      assert CppPattern(ms, k) != Utf8Of(PyPattern(PyPairs(ms), k));
    }
  }

  lemma FoundOk(fms: seq<Member>, k: Bytes)
    requires PatternsOk(fms)
    ensures match FindMember(fms, k)
            case Some(TStr(items)) => Unpaired(items) && NoNul(ItemsValue(items))
            case _ => true
  {
    if FindMember(fms, k).Some? { FoundMember(fms, k); }
    hide FindMember, ItemsValue, Unpaired, NoNul;
  }

  /** When no key is repeated, both read the same message iff the id has no escaped surrogate
      pair, and no pattern has one or a NUL. */
  lemma DistinctReading(datagram: Bytes, t: Tree)
    requires Accepts(datagram, t)
    ensures SameReading(t.members, PyPairs(t.members)) <==> QidAlike(t.members) && PatternsAlike(t.members)
  {
    var ms := t.members;
    AcceptedTree(datagram, t);
    FilterDecodes(datagram, t);
    Names();
    GetOf(ms, K_FILTER);
    hide Get, PyPairs, FindMember, ItemsValue, PyStr, Decodes, Unpaired, Encode, L, ValidFilter, ValidAnnounce,
         CppEcho, TextIs, QidAlike, PatternsOk, DistinctKeys, Decoded, PText;
    TextAlike(ms, K_TYPE, DISCOVER);
    TextAlike(ms, K_PROTO, PROTO);
    EchoAlike(ms);
    match FindMember(ms, K_FILTER) {
      case None => NoPatterns(ms);
      case Some(f) =>
        FilterTree(f);
        PatternsAlikeIff(ms, f.pad, f.members);
    }
  }

  lemma NoPatterns(ms: seq<Member>)
    requires FindMember(ms, K_FILTER).None? && Get(PyPairs(ms), K_FILTER).None?
    ensures SamePatterns(ms, PyPairs(ms))
  {
    hide Get, PyPairs, FindMember, L;
  }

  /** On a message without repeated keys that Python accepts as a DISCOVER the responders decide
      and echo alike iff `stod` can read every number that needs it, the id has no escaped
      surrogate pair, and no pattern has one or a NUL. */
  lemma DistinctAlikeIff(datagram: Bytes, t: Tree, stod: Stod)
    requires Accepts(datagram, t)
    ensures AlwaysAlike(datagram, stod) <==> Wf(t, Finite(stod)) && QidAlike(t.members) && PatternsAlike(t.members)
  {
    AcceptedTree(datagram, t);
    DistinctReading(datagram, t);
    hide Wf, SameReading, QidAlike, PatternsAlike, AlwaysAlike, ValidMessage, ValidDiscover, Decodes, Decoded,
         PText, Get, PyPairs, Distinct;
    AlikeIff(datagram, t, PyPairs(t.members), stod);
  }
}
