/** A responder that answers a client's query is found by it, whichever language it is in. */
module EndToEnd {
  import opened Bytes
  import opened PyText
  import opened PyJson
  import opened CppJson
  import opened CppMessages
  import opened CppAnnounce
  import opened CppToPython
  import opened Protocol
  import opened ProtocolProofs
  import opened Client
  import opened ClientQueries
  import opened Agreement
  import opened Descent
  import opened DescentProofs
  import opened Grammar
  import opened Utf8
  import P = PyLoop

  /** The datagram of one call. */
  function Payload(c: Call): Option<Bytes> {
    var query := BuildQuery(c.filter, Some(c.qid), c.qid);
    if query.Some? then Encoded(query.value) else None
  }

  /** Only the tested fields of an ANNOUNCE matter to a filter: not its id, nor its time. */
  lemma SameShown(a: About, b: About, q: Option<Str>, r: Option<Str>, meta: Option<Dict>, filter: PyVal,
                  lib: Lib)
    requires a.app == b.app && a.name == b.name && a.host == b.host
    ensures MatchesFilter(AnnounceOf(a, q, meta), filter, lib) <==> MatchesFilter(AnnounceOf(b, r, meta), filter, lib)
  {
    AnnounceFields(a, q, meta);
    AnnounceFields(b, r, meta);
    HeadFields(a);
    HeadFields(b);
    hide L, Get, AnnounceOf, Head;
    assert forall k: Str | IsFilterKey(k) ::
             Shown(AnnounceOf(a, q, meta), k, lib) == Shown(AnnounceOf(b, r, meta), k, lib);
  }

  /** A Python responder's decision on the query it was sent. */
  lemma AnswersOwn(c: Call, own: Dict, lib: Lib)
    requires Payload(c).Some? && UnsplitFilter(c.filter) && NoPairs(c.qid)
    ensures PyAnswer(Payload(c).value, own, lib) ==
            if MatchesFilter(own, FilterValue(c.filter), lib) then Reply(Some(PStr(c.qid))) else Silent
  {
    var data := Payload(c).value;
    QueryFields(c.filter, Some(c.qid), c.qid);
    QueryDecodes(c.filter, Some(c.qid), c.qid);
    hide L, Get, BuildQuery, Dumps, ValidMessage, ValidDiscover, ValidFilter, UnsplitFilter, Shown;
    Whole(data);
  }

  /** An ANNOUNCE with the query's id or with none, received: it is accepted under its own id iff
      the client's filter passes it. */
  lemma AcceptedIf(c: Call, a: About, qid: Option<Str>, meta: Option<Dict>, data: Bytes, lib: Lib)
    requires Decoded(data) == Some(AnnounceOf(a, qid, meta)) && |data| <= MAX_DATAGRAM
    requires qid == None || qid == Some(c.qid)
    ensures Accepted(c, data, lib) ==
            if MatchesFilter(AnnounceOf(a, qid, meta), FilterValue(c.filter), lib)
            then Some(Entry(a.id, PDict(AnnounceOf(a, qid, meta)))) else None
  {
    AnnounceFields(a, qid, meta);
    HeadFields(a);
    hide L, Get, AnnounceOf, Head, Decoded, MatchesFilter;
    Whole(data);
  }

  /** A record comes out of a datagram only as `decode` gives it. */
  lemma AcceptedAs(c: Call, key: Str, msg: Dict, data: Bytes, lib: Lib)
    requires Accepted(c, data, lib) == Some(Entry(key, PDict(msg))) && |data| <= MAX_DATAGRAM
    ensures Decoded(data) == Some(msg)
  {
    hide Decoded, MatchesFilter, Get, IdOf;
    Whole(data);
  }

  /** A Python responder that answers the query: its reply, if it can be encoded, is accepted as it
      was built iff its `meta` holds only strings and no string in it splits a surrogate pair. */
  lemma PythonIsFound(c: Call, cfg: P.Config, seen: Process, p: Process)
    requires Payload(c).Some? && UnsplitFilter(c.filter) && NoPairs(c.qid)
    requires PyAnswer(Payload(c).value, P.Announce(cfg, None, seen), cfg.lib).Reply?
    requires Or(cfg.service.host, seen.fqdn) == Or(cfg.service.host, p.fqdn) && RealDict(cfg.service.meta)
    requires Encoded(P.Announce(cfg, Some(c.qid), p)).Some?
    ensures Accepted(c, Encoded(P.Announce(cfg, Some(c.qid), p)).value, cfg.lib) ==
            Some(Entry(cfg.id, PDict(P.Announce(cfg, Some(c.qid), p)))) <==>
            && (cfg.service.meta.Some? ==> StringsOnly(cfg.service.meta.value))
            && AllJoined(StrsOf(PDict(P.Announce(cfg, Some(c.qid), p))))
  {
    var a, meta := AboutService(cfg.service, cfg.id, None, p), cfg.service.meta;
    var msg, data := P.Announce(cfg, Some(c.qid), p), Encoded(P.Announce(cfg, Some(c.qid), p)).value;
    AnswersOwn(c, P.Announce(cfg, None, seen), cfg.lib);
    AnnounceRoundTrip(cfg.service, cfg.id, Some(c.qid), None, p);
    SameShown(AboutService(cfg.service, cfg.id, None, seen), a, None, Some(c.qid), meta, FilterValue(c.filter),
              cfg.lib);
    hide AnnounceOf, MatchesFilter, Decoded, Dumps, StrsOf, AllJoined, ValidMessage, PyAnswer, UnsplitFilter, Accepted;
    if Decoded(data) == Some(msg) { AcceptedIf(c, a, Some(c.qid), meta, data, cfg.lib); }
    if Accepted(c, data, cfg.lib) == Some(Entry(cfg.id, PDict(msg))) { AcceptedAs(c, cfg.id, msg, data, cfg.lib); }
  }

  /** The periodic ANNOUNCE of a Python responder, if it can be encoded, is accepted as it was
      built iff its `meta` holds only strings, no string in it splits a surrogate pair, and the
      client's filter passes it. */
  lemma PythonBeaconIsHeard(c: Call, cfg: P.Config, p: Process, lib: Lib)
    requires RealDict(cfg.service.meta) && Encoded(P.Announce(cfg, None, p)).Some?
    ensures Accepted(c, Encoded(P.Announce(cfg, None, p)).value, lib) ==
            Some(Entry(cfg.id, PDict(P.Announce(cfg, None, p)))) <==>
            && (cfg.service.meta.Some? ==> StringsOnly(cfg.service.meta.value))
            && AllJoined(StrsOf(PDict(P.Announce(cfg, None, p))))
            && MatchesFilter(P.Announce(cfg, None, p), FilterValue(c.filter), lib)
  {
    var a, meta := AboutService(cfg.service, cfg.id, None, p), cfg.service.meta;
    var msg, data := P.Announce(cfg, None, p), Encoded(P.Announce(cfg, None, p)).value;
    AnnounceRoundTrip(cfg.service, cfg.id, None, None, p);
    hide AnnounceOf, MatchesFilter, Decoded, Dumps, StrsOf, AllJoined, ValidMessage, Accepted;
    if Decoded(data) == Some(msg) { AcceptedIf(c, a, None, meta, data, lib); }
    if Accepted(c, data, lib) == Some(Entry(cfg.id, PDict(msg))) { AcceptedAs(c, cfg.id, msg, data, lib); }
  }

  /** The periodic ANNOUNCE of a C++ responder is accepted, with its own fields, iff it fits a
      datagram, everything in it is UTF-8, and the client's filter passes it. */
  lemma CppBeaconIsHeard(c: Call, me: Self, lib: Lib, show: Show)
    requires MapKeys(me.opt.meta)
    ensures var text, own := AnnounceText(me, None, show), AnnounceDictOf(me, None);
      Accepted(c, text, lib) ==
        if |text| <= MAX_DATAGRAM && Utf8Self(me) && MatchesFilter(own, FilterValue(c.filter), lib)
        then Some(Entry(Chars(me.id), PDict(own)))
        else None
  {
    var text := AnnounceText(me, None, show);
    PythonDecodesAnnounce(me, None, show);
    AboutId(me);
    hide MatchesFilter, AnnounceText, Utf8Self, Get, L, Decoded, AboutOf, MetaDict, AnnounceOf;
    if |text| > MAX_DATAGRAM {
      TooLong(c, text, lib);
    } else if Decoded(text).Some? {
      AcceptedIf(c, AboutOf(me), None, Some(MetaDict(me.opt.meta)), text, lib);
    } else {
      Whole(text);
    }
  }

  lemma OwnService(me: Self)
    requires FieldOk(me.opt.app) && FieldOk(me.opt.name) && FieldOk(me.opt.host)
    ensures SameService(AnnounceDictOf(me, None), me.opt)
  {
    AnnounceFields(AboutOf(me), None, Some(MetaDict(me.opt.meta)));
    HeadFields(AboutOf(me));
    hide L, Get, AnnounceOf, Head, FieldOk;
  }

  /** What C++ makes of the id: the UTF-8 of its 16-bit units. */
  function EchoOf(qid: Str): Bytes { Encode(Units(qid)) }

  lemma QidFound(c: Call)
    requires Payload(c).Some?
    ensures var ms := PyMembersOf(BuildQuery(c.filter, Some(c.qid), c.qid).value);
      FindMember(ms, K_QID) == Some(TStr(PyItems(c.qid))) && ItemsValue(PyItems(c.qid)) == EchoOf(c.qid)
  {
    var msg := BuildQuery(c.filter, Some(c.qid), c.qid).value;
    QueryFields(c.filter, Some(c.qid), c.qid);
    QueryKeys(c.filter, Some(c.qid), c.qid);
    Names();
    PyItemsBack(c.qid);
    hide L, Get, BuildQuery, PlainKey, FindMember, PyMembersOf, PyItems, ValidFilter, InBmp, Encoded;
    forall e | e in msg ensures InBmp(e.key) { NoPairsOf(e.key); }
    FindPrinted(msg, K_QID);
  }

  /** The id a C++ responder echoes to any query of the Python client that it answers. */
  lemma CppEchoes(c: Call, o: Options, stod: Stod, glob: Glob)
    requires Payload(c).Some? && CppAnswer(Payload(c).value, o, stod, glob).Reply?
    ensures CppAnswer(Payload(c).value, o, stod, glob) == Reply(Some(EchoOf(c.qid)))
  {
    var msg := BuildQuery(c.filter, Some(c.qid), c.qid).value;
    var data, t := Payload(c).value, PyTree(PDict(msg));
    QueryWf(c.filter, Some(c.qid), c.qid, Finite(stod));
    PlainText(t, Finite(stod));
    ObjectTree(msg);
    QidFound(c);
    FirstOf(t.members, K_QID, stod);
    Whole(data);
    hide BuildQuery, L, Wf, Text, PText, CppMatches, First, MemberValues, FindMember, PyMembersOf, PyItems, ItemsValue;
    assert data != [] && PText(data, Finite(stod)) == Ok(t, []);
    CppReads(data, t, o, stod, glob);
  }

  /** A C++ responder that answers any query of the Python client: its reply is accepted, with
      its own fields, iff it fits a datagram, everything it says is UTF-8, the id has no
      surrogate and no character beyond U+FFFF, and the client's own test of the filter passes. */
  lemma CppIsFound(c: Call, me: Self, lib: Lib, stod: Stod, glob: Glob, show: Show)
    requires Payload(c).Some? && CppAnswer(Payload(c).value, me.opt, stod, glob).Reply? && MapKeys(me.opt.meta)
    ensures CppAnswer(Payload(c).value, me.opt, stod, glob) == Reply(Some(EchoOf(c.qid)))
    ensures var text, own := AnnounceText(me, Some(EchoOf(c.qid)), show), AnnounceDictOf(me, Some(EchoOf(c.qid)));
      Accepted(c, text, lib) ==
        if |text| <= MAX_DATAGRAM && Utf8Self(me) && NoSurrogates(c.qid) && InBmp(c.qid)
           && MatchesFilter(AnnounceDictOf(me, None), FilterValue(c.filter), lib)
        then Some(Entry(Chars(me.id), PDict(own)))
        else None
  {
    var text, q := AnnounceText(me, Some(EchoOf(c.qid)), show), Some(EchoOf(c.qid));
    CppEchoes(c, me.opt, stod, glob);
    EchoUtf8(c.qid);
    PythonDecodesAnnounce(me, q, show);
    hide AnnounceDictOf, MatchesFilter, AnnounceText, CppAnswer, Utf8Self, Get, L, Payload, NoSurrogates, InBmp,
         EchoOf, IsUtf8, Decoded;
    if |text| > MAX_DATAGRAM { TooLong(c, text, lib); } else { AcceptedCpp(c, me, text, lib); }
  }

  lemma EchoUtf8(qid: Str)
    ensures IsUtf8(EchoOf(qid)) <==> NoSurrogates(qid) && InBmp(qid)
    ensures NoSurrogates(qid) && InBmp(qid) ==> EchoOf(qid) == Encode(qid) && Chars(EchoOf(qid)) == qid
  {
    UnitsSame(qid);
    Utf8IffNoSurrogates(Units(qid));
    if !InBmp(qid) { AstralUnits(qid); }
  }

  /** A character beyond U+FFFF becomes two surrogates. */
  lemma {:induction false} AstralUnits(s: Str)
    requires !InBmp(s)
    ensures !NoSurrogates(Units(s))
  {
    var us := UnitsOf(s[0]);
    if s[0] < 0x10000 {
      assert !InBmp(s[1..]) by { assert forall i | 1 <= i < |s| :: s[i] == s[1..][i - 1]; }
      AstralUnits(s[1..]);
      var i :| 0 <= i < |Units(s[1..])| && IsSurrogate(Units(s[1..])[i]);
      assert Units(s)[i + 1] == Units(s[1..])[i];
    } else {
      assert Units(s)[0] == us[0] && IsSurrogate(us[0]);
    }
  }

  /** A C++ ANNOUNCE with the client's id, received whole. */
  lemma AcceptedCpp(c: Call, me: Self, text: Bytes, lib: Lib)
    requires |text| <= MAX_DATAGRAM
    requires Decoded(text).Some? ==> Decoded(text) == Some(AnnounceDictOf(me, Some(EchoOf(c.qid))))
    requires Decoded(text).Some? ==> Chars(EchoOf(c.qid)) == c.qid
    ensures Accepted(c, text, lib) ==
            if Decoded(text).Some? && MatchesFilter(AnnounceDictOf(me, None), FilterValue(c.filter), lib)
            then Some(Entry(Chars(me.id), PDict(AnnounceDictOf(me, Some(EchoOf(c.qid)))))) else None
  {
    hide L, Get, AnnounceOf, Head, Decoded, MatchesFilter, EchoOf, MetaDict, AboutOf;
    var a, meta := AboutOf(me), Some(MetaDict(me.opt.meta));
    AnnounceFields(a, Some(c.qid), meta);
    HeadFields(a);
    SameShown(a, a, None, Some(c.qid), meta, FilterValue(c.filter), lib);
    Whole(text);
    if Decoded(text).Some? { assert AboutOf(me).id == Chars(me.id) by { AboutId(me); } }
  }

  lemma AboutId(me: Self)
    ensures AboutOf(me).id == Chars(me.id)
  {
  }

  /** For a query of simple strings the filter has been tested already: the client accepts what
      the responder's answer says it will. */
  lemma CppFilterPasses(c: Call, me: Self, lib: Lib, stod: Stod, glob: Glob)
    requires Payload(c).Some? && SimpleFilter(c.filter) && Simple(c.qid) && GlobsAgree(lib, glob)
    requires FieldOk(me.opt.app) && FieldOk(me.opt.name) && FieldOk(me.opt.host)
    ensures CppAnswer(Payload(c).value, me.opt, stod, glob).Reply? <==>
            MatchesFilter(AnnounceDictOf(me, None), FilterValue(c.filter), lib)
  {
    var own := AnnounceDictOf(me, None);
    OwnService(me);
    QueryAnsweredAlike(c.filter, Some(c.qid), c.qid, own, me.opt, lib, stod, glob);
    NoSplit(c.filter);
    hide AnnounceDictOf, MatchesFilter, PyAnswer, CppAnswer, SimpleFilter, UnsplitFilter, GlobsAgree, FieldOk,
         SameService, L, BuildQuery, Encoded;
    AnswersOwn(c, own, lib);
  }

  lemma TooLong(c: Call, data: Bytes, lib: Lib)
    requires |data| > MAX_DATAGRAM
    ensures Accepted(c, data, lib).None?
  {
  }

  lemma NoSplit(filter: Option<Dict>)
    requires SimpleFilter(filter)
    ensures UnsplitFilter(filter)
  {
  }
}
