/** What `decode` accepts, in the words of the wire format: every name and constant is spelled out
    here, and no validator is mentioned. */
module Validation {
  import opened Bytes
  import opened PyJson
  import opened Protocol
  import opened ProtocolProofs
  import opened Utf8
  import Client

  predicate TextAt(msg: Dict, key: string, text: Str)
    requires forall i | 0 <= i < |key| :: key[i] as int < 128
  {
    Get(msg, L(key)) == Some(PStr(text))
  }

  /** `msg` is an ANNOUNCE of what `a` describes, whatever else it holds. */
  predicate Announces(msg: Dict, a: About) {
    && TextAt(msg, "proto", L("mu2edaq-discovery/1")) && TextAt(msg, "type", L("ANNOUNCE"))
    && TextAt(msg, "id", a.id) && TextAt(msg, "name", a.name) && TextAt(msg, "app", a.app)
    && TextAt(msg, "host", a.host) && TextAt(msg, "scheme", a.scheme) && TextAt(msg, "version", a.version)
    && TextAt(msg, "started", a.started)
    && Get(msg, L("port")) == Some(PInt(a.port)) && Get(msg, L("pid")) == Some(PInt(a.pid))
  }

  /** The two fields an ANNOUNCE may do without. */
  ghost predicate Extras(msg: Dict) {
    && (Get(msg, L("qid")).Some? ==> exists q: Str :: Get(msg, L("qid")) == Some(PStr(q)))
    && (Get(msg, L("meta")).Some? ==>
          exists meta: Dict :: Get(msg, L("meta")) == Some(PDict(meta)) && forall e <- meta :: AnyText(e.val))
  }

  ghost predicate AnyText(v: PyVal) { exists s: Str :: v == PStr(s) }

  /** A filter names no key but the three, and gives each a pattern. */
  ghost predicate AsksFor(filter: Dict) {
    forall e <- filter :: (e.key == L("app") || e.key == L("name") || e.key == L("host")) && AnyText(e.val)
  }

  ghost predicate Discovers(msg: Dict) {
    && TextAt(msg, "proto", L("mu2edaq-discovery/1")) && TextAt(msg, "type", L("DISCOVER"))
    && (exists q: Str :: TextAt(msg, "qid", q))
    && (Get(msg, L("filter")).Some? ==>
          exists filter: Dict :: Get(msg, L("filter")) == Some(PDict(filter)) && AsksFor(filter))
  }

  lemma TextIff(v: PyVal)
    ensures v.PStr? <==> AnyText(v)
  {
    if v.PStr? { assert v == PStr(v.s); }
  }

  lemma FilterIff(v: PyVal)
    ensures ValidFilter(v) <==> exists filter: Dict :: v == PDict(filter) && AsksFor(filter)
  {
    if v.PDict? {
      assert ValidFilter(v) <==> AsksFor(v.d) by {
        forall e | e in v.d ensures e.val.PStr? <==> AnyText(e.val) { TextIff(e.val); }
      }
    }
  }

  lemma DiscoverIff(msg: Dict)
    ensures Get(msg, K_PROTO) == Some(PStr(PROTO)) && Get(msg, K_TYPE) == Some(PStr(DISCOVER)) && ValidDiscover(msg)
            <==> Discovers(msg)
  {
    hide ValidFilter, AsksFor, Get, L;
    if Get(msg, K_FILTER).Some? { FilterIff(Get(msg, K_FILTER).value); }
    if IsStr(Get(msg, K_QID)) { assert TextAt(msg, "qid", Get(msg, K_QID).value.s); }
  }

  lemma MetaIff(v: PyVal)
    ensures v.PDict? && StringsOnly(v.d) <==>
            exists meta: Dict :: v == PDict(meta) && forall e <- meta :: AnyText(e.val)
  {
    if v.PDict? {
      forall e | e in v.d ensures e.val.PStr? <==> AnyText(e.val) { TextIff(e.val); }
    }
  }

  /** The fields as `a` would give them, whatever their types. */
  function AboutIn(msg: Dict): About {
    About(StrAt(msg, K_ID), StrAt(msg, K_NAME), StrAt(msg, K_APP), StrAt(msg, K_HOST), IntAt(msg, K_PORT),
          StrAt(msg, K_SCHEME), StrAt(msg, K_VERSION), IntAt(msg, K_PID), StrAt(msg, K_STARTED))
  }

  function StrAt(msg: Dict, key: Str): Str { match Get(msg, key) case Some(PStr(s)) => s case _ => [] }

  function IntAt(msg: Dict, key: Str): int { match Get(msg, key) case Some(PInt(n)) => n case _ => 0 }

  lemma AnnounceIff(msg: Dict)
    ensures Get(msg, K_PROTO) == Some(PStr(PROTO)) && Get(msg, K_TYPE) == Some(PStr(ANNOUNCE)) && ValidAnnounce(msg)
            <==> (exists a: About :: Announces(msg, a)) && Extras(msg)
  {
    hide Get, L, StringsOnly;
    if Get(msg, K_META).Some? { MetaIff(Get(msg, K_META).value); }
    if IsStr(Get(msg, K_QID)) { assert Get(msg, K_QID) == Some(PStr(Get(msg, K_QID).value.s)); }
    if Get(msg, K_PROTO) == Some(PStr(PROTO)) && Get(msg, K_TYPE) == Some(PStr(ANNOUNCE)) && ValidAnnounce(msg) {
      assert Announces(msg, AboutIn(msg));
    }
  }

  /** `decode` returns a message iff the datagram is at most 1400 bytes, `json.loads` gives that
      dict, and it is either a DISCOVER with a string `qid` and, if any, a filter of patterns under
      the three keys, or an ANNOUNCE with nine fields of the right types and, if any, a string
      `qid` and a `meta` of strings. */
  lemma DecodeIff(data: Bytes, msg: Dict)
    ensures Decoded(data) == Some(msg) <==>
            && |data| <= 1400 && Loads(data) == Some(PDict(msg))
            && (Discovers(msg) || ((exists a: About :: Announces(msg, a)) && Extras(msg)))
  {
    DiscoverIff(msg);
    AnnounceIff(msg);
    hide Get, L, Loads, ValidDiscover, ValidAnnounce, Discovers, Announces, Extras;
  }

  // ---- what is built ----

  /** `given`, unless it is missing or empty. */
  function Given(given: Option<Str>, otherwise: Str): Str {
    match given
    case None => otherwise
    case Some(text) => if |text| == 0 then otherwise else text
  }

  /** Every field of the ANNOUNCE that is built, defaults and all, and there are no others. */
  lemma BuiltAnnounce(s: Service, id: Str, qid: Option<Str>, started: Option<Str>, p: Process)
    ensures var msg := BuildAnnounce(s, id, qid, started, p);
      && Announces(msg, About(id, s.name, s.app, Given(s.host, p.fqdn), s.port, Given(s.scheme, s.app),
                              Given(s.version, L("0")), p.pid, Given(started, p.now)))
      && Get(msg, L("qid")) == (match qid case None => None case Some(q) => Some(PStr(q)))
      && Get(msg, L("meta")) == (if s.meta.Some? && |s.meta.value| > 0 then Some(PDict(s.meta.value)) else None)
      && |msg| == 11 + (if qid.Some? then 1 else 0) + (if s.meta.Some? && |s.meta.value| > 0 then 1 else 0)
  {
    var a := AboutService(s, id, started, p);
    AnnounceFields(a, qid, s.meta);
    HeadFields(a);
    HeadKeys(a);
    hide L, Get, Head;
  }

  /** A query is built iff its filter, if it has any entry, is one `decode` accepts; and then these
      are its fields. */
  lemma BuiltQuery(filter: Option<Dict>, qid: Option<Str>, uuid: Str)
    ensures var some := filter.Some? && |filter.value| > 0;
      && (BuildQuery(filter, qid, uuid).Some? <==> (some ==> AsksFor(filter.value)))
      && (BuildQuery(filter, qid, uuid).Some? ==>
            var msg := BuildQuery(filter, qid, uuid).value;
            && TextAt(msg, "proto", L("mu2edaq-discovery/1")) && TextAt(msg, "type", L("DISCOVER"))
            && TextAt(msg, "qid", Given(qid, uuid)) && |msg| == (if some then 4 else 3)
            && Get(msg, L("filter")) == (if some then Some(PDict(filter.value)) else None))
  {
    if filter.Some? { FilterIff(PDict(filter.value)); }
    if BuildQuery(filter, qid, uuid).Some? { QueryFields(filter, qid, uuid); }
    hide L, Get, ValidFilter, AsksFor;
  }

  /** A datagram of more than 1400 bytes is neither answered nor taken for an answer. */
  lemma OversizeIgnored(data: Bytes, own: Dict, c: Client.Call, lib: Lib)
    requires |data| > 1400
    ensures PyAnswer(data, own, lib).Silent? && Client.Accepted(c, data, lib).None?
  {
  }

  // ---- filters ----

  /** What a filter sees of a field: its text, nothing if it is missing, and `str` of anything else. */
  function Seen(msg: Dict, key: Str, lib: Lib): Str {
    if Get(msg, key) == None then []
    else if Get(msg, key).value.PStr? then Get(msg, key).value.s
    else lib.str(Get(msg, key).value)
  }

  /** Without a filter everything matches; a filter that is not a dict matches nothing; and a dict
      matches iff it names only the three keys, each pattern a string that matches the field. */
  lemma MatchIff(msg: Dict, filter: PyVal, lib: Lib)
    ensures filter == PNone ==> MatchesFilter(msg, filter, lib)
    ensures filter != PNone && !filter.PDict? ==> !MatchesFilter(msg, filter, lib)
    ensures filter.PDict? ==>
              (MatchesFilter(msg, filter, lib) <==>
               AsksFor(filter.d) && forall e <- filter.d :: e.val.PStr? && lib.fnmatch(Seen(msg, e.key, lib), e.val.s))
  {
    hide Get, L;
    if filter.PDict? {
      FilterIff(filter);
      assert ValidFilter(filter) <==> AsksFor(filter.d);
    }
  }
}
