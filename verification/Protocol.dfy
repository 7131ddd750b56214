/** `protocol.py`: building, encoding, decoding, validating and filtering messages. */
module Protocol {
  import opened Bytes
  import opened PyJson
  import opened Utf8

  const MAX_DATAGRAM := 1400

  const PROTO: Bytes := L("mu2edaq-discovery/1")
  const DISCOVER: Bytes := L("DISCOVER")
  const ANNOUNCE: Bytes := L("ANNOUNCE")

  const K_PROTO: Bytes := L("proto")
  const K_TYPE: Bytes := L("type")
  const K_QID: Bytes := L("qid")
  const K_FILTER: Bytes := L("filter")
  const K_ID: Bytes := L("id")
  const K_NAME: Bytes := L("name")
  const K_APP: Bytes := L("app")
  const K_HOST: Bytes := L("host")
  const K_PORT: Bytes := L("port")
  const K_SCHEME: Bytes := L("scheme")
  const K_VERSION: Bytes := L("version")
  const K_PID: Bytes := L("pid")
  const K_STARTED: Bytes := L("started")
  const K_META: Bytes := L("meta")

  predicate IsFilterKey(key: Str) { key == K_APP || key == K_NAME || key == K_HOST }

  // ---- building ----

  /** `value or default`, for a string or None. */
  function Or(value: Option<Str>, default: Str): Str {
    if value.Some? && value.value != [] then value.value else default
  }

  /** `build_query`; None is a ProtocolError.  `uuid` is what `uuid4` returned. */
  function BuildQuery(filter: Option<Dict>, qid: Option<Str>, uuid: Str): Option<Dict> {
    var msg := [Entry(K_PROTO, PStr(PROTO)), Entry(K_TYPE, PStr(DISCOVER)), Entry(K_QID, PStr(Or(qid, uuid)))];
    if filter.None? || filter.value == [] then Some(msg)
    else if !ValidFilter(PDict(filter.value)) then None
    else Some(msg + [Entry(K_FILTER, PDict(filter.value))])
  }

  /** What a service says about itself: the keyword arguments a Responder stores. */
  datatype Service = Service(name: Str, app: Str, port: int, scheme: Option<Str>, version: Option<Str>,
                             meta: Option<Dict>, host: Option<Str>)

  /** The process: its id, its host's full name, and the time. */
  datatype Process = Process(pid: int, fqdn: Str, now: Str)

  /** The fields every ANNOUNCE has besides `proto` and `type`. */
  datatype About = About(id: Str, name: Str, app: Str, host: Str, port: int, scheme: Str, version: Str, pid: int,
                         started: Str)

  /** `build_announce`. */
  function BuildAnnounce(s: Service, id: Str, qid: Option<Str>, started: Option<Str>, p: Process): Dict {
    AnnounceOf(AboutService(s, id, started, p), qid, s.meta)
  }

  function AboutService(s: Service, id: Str, started: Option<Str>, p: Process): About {
    About(id, s.name, s.app, Or(s.host, p.fqdn), s.port, Or(s.scheme, s.app), Or(s.version, L("0")), p.pid,
          Or(started, p.now))
  }

  function AnnounceOf(a: About, qid: Option<Str>, meta: Option<Dict>): Dict {
    Head(a) + QidPart(qid) + MetaPart(meta)
  }

  function Head(a: About): Dict {
    [Entry(K_PROTO, PStr(PROTO)), Entry(K_TYPE, PStr(ANNOUNCE)), Entry(K_ID, PStr(a.id)),
     Entry(K_NAME, PStr(a.name)), Entry(K_APP, PStr(a.app)), Entry(K_HOST, PStr(a.host)),
     Entry(K_PORT, PInt(a.port)), Entry(K_SCHEME, PStr(a.scheme)), Entry(K_VERSION, PStr(a.version)),
     Entry(K_PID, PInt(a.pid)), Entry(K_STARTED, PStr(a.started))]
  }

  function QidPart(qid: Option<Str>): Dict {
    if qid.Some? then [Entry(K_QID, PStr(qid.value))] else []
  }

  function MetaPart(meta: Option<Dict>): Dict {
    if meta.Some? && meta.value != [] then [Entry(K_META, PDict(meta.value))] else []
  }

  // ---- encoding ----

  /** `encode`; None is a ProtocolError. */
  function Encoded(msg: Dict): Option<Bytes> {
    var data := Dumps(PDict(msg));
    if |data| > MAX_DATAGRAM then None else Some(data)
  }

  /** `decode`; None is a ProtocolError. */
  function Decoded(data: Bytes): Option<Dict> {
    if |data| > MAX_DATAGRAM then None
    else
      match Loads(data)
      case Some(PDict(msg)) => if ValidMessage(msg) then Some(msg) else None
      case _ => None
  }

  predicate ValidMessage(msg: Dict) {
    && Get(msg, K_PROTO) == Some(PStr(PROTO))
    && (|| (Get(msg, K_TYPE) == Some(PStr(DISCOVER)) && ValidDiscover(msg))
        || (Get(msg, K_TYPE) == Some(PStr(ANNOUNCE)) && ValidAnnounce(msg)))
  }

  // ---- validating ----

  predicate IsStr(v: Option<PyVal>) { v.Some? && v.value.PStr? }

  /** An `int` that is not a `bool`. */
  predicate IsInt(v: Option<PyVal>) { v.Some? && v.value.PInt? }

  predicate ValidFilter(filter: PyVal) {
    filter.PDict? && forall e <- filter.d :: IsFilterKey(e.key) && e.val.PStr?
  }

  predicate ValidDiscover(msg: Dict) {
    && IsStr(Get(msg, K_QID))
    && match Get(msg, K_FILTER)
       case None => true
       case Some(filter) => ValidFilter(filter)
  }

  predicate ValidAnnounce(msg: Dict) {
    && IsStr(Get(msg, K_ID)) && IsStr(Get(msg, K_NAME)) && IsStr(Get(msg, K_APP)) && IsStr(Get(msg, K_HOST))
    && IsStr(Get(msg, K_SCHEME)) && IsStr(Get(msg, K_VERSION)) && IsStr(Get(msg, K_STARTED))
    && IsInt(Get(msg, K_PORT)) && IsInt(Get(msg, K_PID))
    && (Get(msg, K_QID).Some? ==> IsStr(Get(msg, K_QID)))
    && match Get(msg, K_META)
       case None => true
       case Some(meta) => meta.PDict? && StringsOnly(meta.d)
  }

  predicate StringsOnly(meta: Dict) { forall e <- meta :: e.val.PStr? }

  // ---- filtering ----

  /** The two library calls `matches_filter` makes: `fnmatch(value, pattern)`, and `str` of a
      value that is not a string. */
  datatype Lib = Lib(fnmatch: (Str, Str) -> bool, str: PyVal -> Str)

  /** `str(announce.get(key, ""))`. */
  function Shown(announce: Dict, key: Str, lib: Lib): Str {
    match Get(announce, key)
    case None => []
    case Some(PStr(s)) => s
    case Some(v) => lib.str(v)
  }

  /** `matches_filter`. */
  predicate MatchesFilter(announce: Dict, filter: PyVal, lib: Lib) {
    || filter.PNone?
    || (filter.PDict? &&
        forall e <- filter.d ::
          IsFilterKey(e.key) && e.val.PStr? && lib.fnmatch(Shown(announce, e.key, lib), e.val.s))
  }

  // ---- the Python responder's answer to one datagram ----

  /** `msg.get(key)`, None when absent. */
  function GetOrNone(msg: Dict, key: Str): PyVal {
    match Get(msg, key) case Some(v) => v case None => PNone
  }

  datatype Answer<+Q> = Silent | Reply(qid: Option<Q>)

  /** What `Responder.run` does with a received datagram: which `qid` it echoes, if it replies.
      `recvfrom` hands over at most MAX_DATAGRAM + 1 bytes. */
  function PyAnswer(datagram: Bytes, own: Dict, lib: Lib): Answer<PyVal> {
    match Decoded(datagram[..Min(|datagram|, MAX_DATAGRAM + 1)])
    case None => Silent
    case Some(msg) =>
      if Get(msg, K_TYPE) != Some(PStr(DISCOVER)) then Silent
      else if !MatchesFilter(own, GetOrNone(msg, K_FILTER), lib) then Silent
      else Reply(Get(msg, K_QID))
  }

  // ---- the field names are distinct ----

  lemma Word(s: string)
    requires s != "" && forall i | 0 <= i < |s| :: s[i] as int < 128
    ensures |L(s)| == |s| && L(s)[0] == s[0] as int && Ascii(L(s))
  {
  }

  /** Every field name is ASCII, and no two have both the same length and the same initial. */
  lemma Names()
    ensures Ascii(PROTO) && Ascii(DISCOVER) && Ascii(ANNOUNCE) && Ascii(K_PROTO) && Ascii(K_TYPE)
          && Ascii(K_QID) && Ascii(K_FILTER) && Ascii(K_ID) && Ascii(K_NAME) && Ascii(K_APP)
          && Ascii(K_HOST) && Ascii(K_PORT) && Ascii(K_SCHEME) && Ascii(K_VERSION) && Ascii(K_PID)
          && Ascii(K_STARTED) && Ascii(K_META)
    ensures |K_PROTO| == 5 && |K_TYPE| == 4 && |K_QID| == 3 && |K_FILTER| == 6 && |K_ID| == 2 && |K_NAME| == 4
         && |K_APP| == 3 && |K_HOST| == 4 && |K_PORT| == 4 && |K_SCHEME| == 6 && |K_VERSION| == 7 && |K_PID| == 3
         && |K_STARTED| == 7 && |K_META| == 4 && |DISCOVER| == 8 && |ANNOUNCE| == 8
    ensures K_TYPE[0] == 't' as int && K_NAME[0] == 'n' as int && K_HOST[0] == 'h' as int
         && K_PORT[0] == 'p' as int && K_META[0] == 'm' as int
    ensures K_QID[0] == 'q' as int && K_APP[0] == 'a' as int && K_PID[0] == 'p' as int
    ensures K_FILTER[0] == 'f' as int && K_SCHEME[0] == 's' as int && K_VERSION[0] == 'v' as int
         && K_STARTED[0] == 's' as int && DISCOVER != ANNOUNCE
  {
    hide L;
    Word("mu2edaq-discovery/1");
    Word("DISCOVER");
    Word("ANNOUNCE");
    Word("proto");
    Word("type");
    Word("qid");
    Word("filter");
    Word("id");
    Word("name");
    Word("app");
    Word("host");
    Word("port");
    Word("scheme");
    Word("version");
    Word("pid");
    Word("started");
    Word("meta");
    assert DISCOVER[0] != ANNOUNCE[0];
  }
}
