/** The message side of `Responder.cpp`: the constructor's defaults, `build_announce`,
    `matches_filter`, and what `run` does with one received datagram. */
module CppMessages {
  import opened Bytes
  import opened CppJson
  import Descent
  import DescentProofs
  import Grammar
  import JsonParser
  import JsonWriter
  import opened Protocol

  type int32 = i: int | -0x8000_0000 <= i <= 0x7FFF_FFFF

  /** `Responder::Options`.  `meta` is in the order `std::map` iterates. */
  datatype Options = Options(name: Bytes, app: Bytes, port: int32, scheme: Bytes, version: Bytes,
                             meta: seq<(Bytes, Bytes)>, host: Bytes)

  /** The constructor's defaults; `fqdn` is what the resolver returned. */
  function Completed(o: Options, fqdn: Bytes): Options {
    o.(scheme := if o.scheme == [] then o.app else o.scheme,
       host := if o.host == [] then fqdn else o.host)
  }

  /** What one running responder is: its options, its id, its start time and its process id. */
  datatype Self = Self(opt: Options, id: Bytes, started: Bytes, pid: int32)

  // ---- build_announce ----

  function MetaFields(meta: seq<(Bytes, Bytes)>): (o: seq<Field>)
    ensures |o| == |meta| && forall i | 0 <= i < |o| :: o[i] == Field(meta[i].0, Str(meta[i].1))
  {
    if meta == [] then [] else [Field(meta[0].0, Str(meta[0].1))] + MetaFields(meta[1..])
  }

  function HeadFieldsOf(me: Self): seq<Field> {
    var o := me.opt;
    [Field(K_PROTO, Str(PROTO)), Field(K_TYPE, Str(ANNOUNCE)), Field(K_ID, Str(me.id)),
     Field(K_NAME, Str(o.name)), Field(K_APP, Str(o.app)), Field(K_HOST, Str(o.host)),
     Field(K_PORT, Int(o.port)), Field(K_SCHEME, Str(o.scheme)), Field(K_VERSION, Str(o.version)),
     Field(K_PID, Int(me.pid)), Field(K_STARTED, Str(me.started))]
  }

  function QidField(qid: Option<Bytes>): seq<Field> {
    if qid.Some? then [Field(K_QID, Str(qid.value))] else []
  }

  function MetaField(meta: seq<(Bytes, Bytes)>): seq<Field> {
    if meta != [] then [Field(K_META, Obj(MetaFields(meta)))] else []
  }

  function AnnounceObject(me: Self, qid: Option<Bytes>): Json {
    Obj(HeadFieldsOf(me) + QidField(qid) + MetaField(me.opt.meta))
  }

  function AnnounceText(me: Self, qid: Option<Bytes>, show: Show): Bytes {
    Dump(AnnounceObject(me, qid), show)
  }

  method BuildAnnounce(me: Self, qid: Option<Bytes>, show: Show) returns (text: Bytes)
    ensures text == AnnounceText(me, qid, show)
  {
    var opt := me.opt;
    var obj: seq<Field> := [];
    obj := obj + [Field(K_PROTO, Str(PROTO))];
    obj := obj + [Field(K_TYPE, Str(ANNOUNCE))];
    obj := obj + [Field(K_ID, Str(me.id))];
    obj := obj + [Field(K_NAME, Str(opt.name))];
    obj := obj + [Field(K_APP, Str(opt.app))];
    obj := obj + [Field(K_HOST, Str(opt.host))];
    obj := obj + [Field(K_PORT, Int(opt.port))];
    obj := obj + [Field(K_SCHEME, Str(opt.scheme))];
    obj := obj + [Field(K_VERSION, Str(opt.version))];
    obj := obj + [Field(K_PID, Int(me.pid))];
    obj := obj + [Field(K_STARTED, Str(me.started))];
    assert obj == HeadFieldsOf(me);
    hide HeadFieldsOf, L;
    if qid.Some? { obj := obj + [Field(K_QID, Str(qid.value))]; }
    assert obj == HeadFieldsOf(me) + QidField(qid);
    if opt.meta != [] {
      var meta: seq<Field> := [];
      var i := 0;
      while i < |opt.meta|
        invariant i <= |opt.meta| && |meta| == i
        invariant forall j | 0 <= j < i :: meta[j] == Field(opt.meta[j].0, Str(opt.meta[j].1))
      {
        meta := meta + [Field(opt.meta[i].0, Str(opt.meta[i].1))];
        i := i + 1;
      }
      assert meta == MetaFields(opt.meta);
      obj := obj + [Field(K_META, Obj(meta))];
    }
    assert obj == HeadFieldsOf(me) + QidField(qid) + MetaField(opt.meta);
    text := JsonWriter.DumpJson(Obj(obj), show);
  }

  // ---- matches_filter ----

  /** POSIX `fnmatch(pattern, string, 0) == 0` on C strings. */
  type Glob = (Bytes, Bytes) -> bool

  /** `c_str()`: what a C function sees of a `std::string`. */
  function CStr(s: Bytes): Bytes {
    if s == [] || s[0] == 0 then [] else [s[0]] + CStr(s[1..])
  }

  predicate CheckKey(filter: Json, key: Bytes, value: Bytes, glob: Glob) {
    match Lookup(filter, key)
    case Some(Str(pat)) => glob(CStr(pat), CStr(value))
    case _ => true
  }

  predicate CppMatches(o: Options, filter: Json, glob: Glob) {
    || !filter.Obj?
    || (CheckKey(filter, K_APP, o.app, glob) && CheckKey(filter, K_NAME, o.name, glob)
        && CheckKey(filter, K_HOST, o.host, glob))
  }

  // ---- run, one datagram ----

  /** What `run` does with the `n` bytes `recvfrom` put in its buffer. */
  function CppAnswerTo(buf: Bytes, o: Options, stod: Stod, glob: Glob): Answer<Bytes> {
    if buf == [] then Silent
    else
      match Parse(buf, stod)
      case Failure(_) => Silent
      case Success(msg) =>
        var kind, proto := Lookup(msg, K_TYPE), Lookup(msg, K_PROTO);
        if !(kind.Some? && AsString(kind.value) == DISCOVER && proto.Some? && AsString(proto.value) == PROTO)
        then Silent
        else
          var filter := Lookup(msg, K_FILTER);
          if filter.Some? && !CppMatches(o, filter.value, glob) then Silent
          else Reply(match Lookup(msg, K_QID) case None => None case Some(q) => Some(AsString(q)))
  }

  /** `recvfrom` hands over at most MAX_DATAGRAM bytes. */
  function CppAnswer(datagram: Bytes, o: Options, stod: Stod, glob: Glob): Answer<Bytes> {
    CppAnswerTo(datagram[..Min(|datagram|, MAX_DATAGRAM)], o, stod, glob)
  }

  /** The body of the receive branch, in the order of the source. */
  method Handle(buf: Bytes, me: Self, stod: Stod, glob: Glob, show: Show) returns (reply: Option<Bytes>)
    ensures reply == match CppAnswerTo(buf, me.opt, stod, glob)
                     case Silent => None
                     case Reply(qid) => Some(AnnounceText(me, qid, show))
  {
    if |buf| == 0 { return None; }
    var parsed := JsonParser.Parse(buf, stod);
    if parsed.Failure? { return None; }
    var msg := parsed.value;
    var kind := Find(msg, K_TYPE);
    var proto := Find(msg, K_PROTO);
    if kind.Some? && AsString(kind.value) == DISCOVER && proto.Some? && AsString(proto.value) == PROTO {
      var filter := Find(msg, K_FILTER);
      if filter.None? || CppMatches(me.opt, filter.value, glob) {
        var qid := Find(msg, K_QID);
        var echoed: Option<Bytes> := None;
        if qid.Some? { echoed := Some(AsString(qid.value)); }
        var text := BuildAnnounce(me, echoed, show);
        return Some(text);
      }
    }
    return None;
  }

  lemma AnsweredIsObject(p: Bytes, o: Options, stod: Stod, glob: Glob)
    requires CppAnswerTo(p, o, stod, glob).Reply?
    ensures Descent.PText(p, Finite(stod)).Ok? && Descent.PText(p, Finite(stod)).v.TObj?
  {
    hide CppMatches;
  }

  /** What is answered is an object, so what it prefixes is refused unless only blanks follow. */
  lemma AnsweredPrefix(p: Bytes, q: Bytes, o: Options, stod: Stod, glob: Glob)
    requires CppAnswerTo(p, o, stod, glob).Reply?
    ensures Grammar.Blank(q) ==> CppAnswerTo(p + q, o, stod, glob) == CppAnswerTo(p, o, stod, glob)
    ensures !Grammar.Blank(q) ==> Parse(p + q, stod).Failure? && CppAnswerTo(p + q, o, stod, glob).Silent?
  {
    AnsweredIsObject(p, o, stod, glob);
    hide CppMatches, Value, Descent.PText, Grammar.Blank, Lookup, L;
    if Grammar.Blank(q) {
      DescentProofs.BlanksAfter(p, q, Finite(stod));
    } else if Parse(p + q, stod).Success? {
      DescentProofs.PrefixFree(p, q, Finite(stod));
      assert false;
    }
  }

  /** When the responder answers a datagram it answers as the whole datagram would be answered
      iff nothing but blanks was cut off; when anything else was, it answers a message that,
      whole, no parser would have accepted. */
  lemma CutAnswersAlike(datagram: Bytes, o: Options, stod: Stod, glob: Glob)
    requires CppAnswer(datagram, o, stod, glob).Reply?
    ensures CppAnswer(datagram, o, stod, glob) == CppAnswerTo(datagram, o, stod, glob) <==>
            |datagram| <= MAX_DATAGRAM || Grammar.Blank(datagram[MAX_DATAGRAM..])
    ensures CppAnswer(datagram, o, stod, glob) == CppAnswerTo(datagram, o, stod, glob) || Parse(datagram, stod).Failure?
  {
    var n := Min(|datagram|, MAX_DATAGRAM);
    hide CppAnswerTo, Parse;
    assert datagram == datagram[..n] + datagram[n..];
    AnsweredPrefix(datagram[..n], datagram[n..], o, stod, glob);
  }

  /** `n` spaces. */
  function Spaces(n: nat): (s: Bytes)
    ensures |s| == n && Grammar.Blank(s)
  {
    if n == 0 then [] else [0x20] + Spaces(n - 1)
  }

  /** The other case is real, for every message that is answered: pad it to MAX_DATAGRAM bytes
      and put anything but blanks behind.  The responder answers, the whole is no message. */
  lemma JunkBehind(text: Bytes, junk: Bytes, o: Options, stod: Stod, glob: Glob)
    requires CppAnswerTo(text, o, stod, glob).Reply? && |text| <= MAX_DATAGRAM && !Grammar.Blank(junk)
    ensures var datagram := text + Spaces(MAX_DATAGRAM - |text|) + junk;
      && CppAnswer(datagram, o, stod, glob) == CppAnswerTo(text, o, stod, glob)
      && CppAnswerTo(datagram, o, stod, glob).Silent? && Parse(datagram, stod).Failure?
  {
    var front := text + Spaces(MAX_DATAGRAM - |text|);
    hide CppAnswerTo, Parse, Spaces;
    AnsweredPrefix(text, Spaces(MAX_DATAGRAM - |text|), o, stod, glob);
    AnsweredPrefix(front, junk, o, stod, glob);
    assert (front + junk)[..MAX_DATAGRAM] == front;
  }
}
