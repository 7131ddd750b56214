/** What one client can conclude from the list it is given, over every run of the network. */
module NetworkSafety {
  import opened Bytes
  import opened Grammar
  import opened Descent
  import opened PyText
  import opened PyJson
  import opened CppMessages
  import opened CppAnnounce
  import opened CppToPython
  import opened Protocol
  import opened ProtocolProofs
  import opened Client
  import opened ClientResult
  import opened ClientQueries
  import opened Agreement
  import opened Silence
  import opened Network
  import opened Ranking
  import opened Utf8
  import CppJson
  import P = PyLoop
  import PP = PyLoopProofs

  /** What Python decodes is what it was sent, when that fits. */
  function Cut(data: Bytes): Bytes { data[..Min(|data|, MAX_DATAGRAM + 1)] }

  lemma CutWhole(data: Bytes)
    requires Decoded(Cut(data)).Some?
    ensures Cut(data) == data
  {
    assert |data| > MAX_DATAGRAM ==> |Cut(data)| == MAX_DATAGRAM + 1;
  }

  // ---- the client does not take its own query for an answer ----

  lemma QueryReread(filter: Option<Dict>, qid: Str)
    requires BuildQuery(filter, Some(qid), qid).Some? && RealDict(filter)
    ensures var msg := BuildQuery(filter, Some(qid), qid).value;
      Loads(Dumps(PDict(msg))) == Some(PDict(Reread(msg))) && Get(Reread(msg), K_TYPE) == Some(PStr(DISCOVER))
  {
    var msg := BuildQuery(filter, Some(qid), qid).value;
    QueryFields(filter, Some(qid), qid);
    QueryKeys(filter, Some(qid), qid);
    AsciiWord(DISCOVER);
    Names();
    RealEach(msg);
    hide L, Get, BuildQuery, Reread, PlainKey, PyTree, PyValue, PyStr, PyItems, Loads, Dumps, ValidFilter;
    RereadField(msg, K_TYPE);
    StringReread(DISCOVER);
  }

  lemma OwnQueryIgnored(w: World)
    requires WorldOk(w)
    ensures Accepted(w.c, w.payload, w.lib).None?
  {
    QueryReread(w.c.filter, w.c.qid);
    Names();
    hide L, Get, BuildQuery, Reread, Loads, Dumps, MatchesFilter, ValidMessage;
    if Decoded(Cut(w.payload)).Some? { CutWhole(w.payload); }
  }

  /** Every record heard comes from a packet some responder sent. */
  lemma Provenance(w: World, s: Net, e: Entry) returns (packet: Packet)
    requires WorldOk(w) && Inv(w, s) && Heard(w, s.sent, e)
    ensures packet in s.sent && !Asks(packet) && packet.at < |w.nodes|
    ensures Accepted(w.c, packet.data, w.lib) == Some(e)
  {
    hide Answers, Announces, Echoes, MatchesFilter, WorldOk;
    packet :| packet in s.sent && Accepted(w.c, packet.data, w.lib) == Some(e);
    assert PacketOk(w, s.sent, packet);
    OwnQueryIgnored(w);
  }

  // ---- which id a record carries ----

  lemma PySaidQid(cfg: P.Config, p: Process, qid: Option<Str>, data: Bytes)
    requires RealDict(cfg.service.meta) && Encoded(P.Announce(cfg, qid, p)) == Some(data) && Decoded(Cut(data)).Some?
    ensures Get(Decoded(Cut(data)).value, K_QID) ==
            match qid case None => None case Some(q) => Some(PStr(PyStr(PyItems(q))))
  {
    CutWhole(data);
    PyAnnounceReread(AboutService(cfg.service, cfg.id, None, p), qid, cfg.service.meta);
    hide AnnounceOf, Reread, Get, Dumps, Loads, ValidMessage, L, PyStr, PyItems;
  }

  lemma CppSaidQid(me: Self, qid: Option<Bytes>, show: CppJson.Show)
    requires MapKeys(me.opt.meta) && Decoded(Cut(AnnounceText(me, qid, show))).Some?
    ensures Get(Decoded(Cut(AnnounceText(me, qid, show))).value, K_QID) ==
            match qid case None => None case Some(b) => Some(PStr(Chars(b)))
    ensures qid.Some? ==> IsUtf8(qid.value)
  {
    CutWhole(AnnounceText(me, qid, show));
    PythonDecodesAnnounce(me, qid, show);
    AnnounceFields(AboutOf(me), QidChars(qid), Some(MetaDict(me.opt.meta)));
    hide AnnounceOf, Get, L, Loads, ValidMessage, AnnounceText, Utf8Self, IsUtf8, Chars;
  }

  /** An id Python has read has no split surrogate pair, so echoing it loses nothing. */
  lemma QidUnsplit(data: Bytes, q: Str)
    requires Decoded(data).Some? && Get(Decoded(data).value, K_QID) == Some(PStr(q))
    ensures PyStr(PyItems(q)) == q
  {
    DecodedValue(data);
    var t := PText(data, AnyNumber()).v;
    var ps := PyPairs(t.members);
    LastWins(ps, K_QID);
    LastIn(ps, K_QID);
    PairsAre(t.members);
    var i :| 0 <= i < |ps| && ps[i] == Entry(K_QID, PStr(q));
    StringValue(t.members[i].val.t, q);
    PyStrBack(q);
  }

  lemma StringValue(t: Tree, q: Str)
    requires PyValue(t) == PStr(q)
    ensures NoPairs(q)
  {
    var us := Decode(CppJson.ItemsValue(t.items), false);
    if us.Some? { JoinNoPairs(us.value); }
  }

  /** A packet a Python responder sent, and what it echoes. */
  lemma PyEchoed(w: World, s: Net, packet: Packet, cfg: P.Config)
    requires WorldOk(w) && Inv(w, s) && packet in s.sent && !Asks(packet) && packet.at < |w.nodes|
    requires w.nodes[packet.at] == Py(cfg) && Decoded(Cut(packet.data)).Some?
    requires Get(Decoded(Cut(packet.data)).value, K_QID) == Some(PStr(w.c.qid))
    ensures packet.Reply? && Echoes(w.nodes[packet.at], packet.query.data, w.c.qid)
  {
    assert PacketOk(w, s.sent, packet);
    assert w.nodes[packet.at] in w.nodes && ConfigOk(w.nodes[packet.at]);
    hide Inv, Get, L, Encoded, P.Announce, PyAnswer, ValidMessage, MatchesFilter, PyStr, PyItems, WorldOk, Honest;
    if packet.Beacon? {
      var p :| Encoded(P.Announce(cfg, None, p)) == Some(packet.data);
      PySaidQid(cfg, p, None, packet.data);
    } else {
      var seen, p, q := PyAnswered(cfg, packet.query.data, packet.data);
      PySaidQid(cfg, p, Some(q), packet.data);
      EchoedFrom(packet.query.data, P.Announce(cfg, None, seen), cfg.lib, q);
    }
  }

  lemma EchoedFrom(query: Bytes, own: Dict, lib: Lib, q: Str)
    requires PyAnswer(query, own, lib) == Answer.Reply(Some(PStr(q)))
    ensures Decoded(Cut(query)).Some? && Get(Decoded(Cut(query)).value, K_QID) == Some(PStr(q))
    ensures PyStr(PyItems(q)) == q
  {
    QidUnsplit(Cut(query), q);
  }

  /** The same for a C++ responder. */
  lemma CppEchoed(w: World, s: Net, packet: Packet)
    requires WorldOk(w) && Inv(w, s) && packet in s.sent && !Asks(packet) && packet.at < |w.nodes|
    requires w.nodes[packet.at].Cpp? && Decoded(Cut(packet.data)).Some?
    requires Get(Decoded(Cut(packet.data)).value, K_QID) == Some(PStr(w.c.qid))
    ensures packet.Reply? && Echoes(w.nodes[packet.at], packet.query.data, w.c.qid)
  {
    assert PacketOk(w, s.sent, packet);
    assert w.nodes[packet.at] in w.nodes && ConfigOk(w.nodes[packet.at]);
    var cfg := w.nodes[packet.at].cpp;
    hide Inv, Get, L, Encoded, AnnounceText, ValidMessage, MatchesFilter, WorldOk, Honest, CppAnswer;
    if packet.Beacon? {
      CppSaidQid(cfg.me, None, cfg.show);
    } else {
      var answer := CppAnswer(packet.query.data, cfg.me.opt, cfg.stod, cfg.glob);
      CppSaidQid(cfg.me, answer.qid, cfg.show);
      CharsBack(answer.qid.value);
    }
  }

  /** The record `e` was sent by a responder in `packet`, passes the client's filter, and either
      answers this very query, echoing its id, or carries no id at all. */
  ghost predicate Safe(w: World, sent: set<Packet>, e: Entry, packet: Packet) {
    && packet in sent && !Asks(packet) && packet.at < |w.nodes| && Says(w.nodes[packet.at], packet.data)
    && Accepted(w.c, packet.data, w.lib) == Some(e)
    && e.val.PDict? && MatchesFilter(e.val.d, FilterValue(w.c.filter), w.lib)
    && (|| Get(e.val.d, K_QID).None?
        || (&& Get(e.val.d, K_QID) == Some(PStr(w.c.qid)) && packet.Reply? && packet.query.Query?
            && packet.query.data == w.payload))
  }

  lemma AcceptedMsg(w: World, data: Bytes, e: Entry)
    requires Accepted(w.c, data, w.lib) == Some(e)
    ensures e.val.PDict? && Decoded(Cut(data)) == Some(e.val.d)
            && MatchesFilter(e.val.d, FilterValue(w.c.filter), w.lib)
    ensures Get(e.val.d, K_QID).None? || Get(e.val.d, K_QID) == Some(PStr(w.c.qid))
  {
    hide Decoded, Get, MatchesFilter, L;
  }

  lemma HeardSafely(w: World, s: Net, e: Entry) returns (packet: Packet)
    requires WorldOk(w) && Inv(w, s) && Heard(w, s.sent, e)
    ensures Safe(w, s.sent, e, packet)
  {
    packet := Provenance(w, s, e);
    assert PacketOk(w, s.sent, packet);
    AcceptedMsg(w, packet.data, e);
    hide Answers, Announces, Get, MatchesFilter, ValidMessage, L, WorldOk, Inv, Echoes, Decoded, Says, Accepted;
    SaysSent(w.nodes[packet.at], if packet.Reply? then packet.query.data else [], packet.data);
    if Get(e.val.d, K_QID).Some? {
      match w.nodes[packet.at] {
        case Py(cfg) => PyEchoed(w, s, packet, cfg);
        case Cpp(_) => CppEchoed(w, s, packet);
      }
      OursIfEchoed(w, s, packet);
    }
  }

  /** In every run of any mix of responders, every record the client holds is safe. */
  lemma Safety(w: World, trace: seq<Net>, steps: seq<Step>, i: nat, e: Entry) returns (packet: Packet)
    requires WorldOk(w) && Run(w, trace, steps) && i < |trace| && e in trace[i].found
    ensures Safe(w, trace[i].sent, e, packet)
  {
    InvHolds(w, trace, steps, i);
    hide Run, WorldOk, Safe, Heard;
    packet := HeardSafely(w, trace[i], e);
  }

  /** Every datagram the client's loop received is a packet of the run. */
  ghost predicate FromNetwork(c: Call, ticks: seq<Tick>, sent: set<Packet>) {
    forall k: nat | k < Turns(c, ticks) && ticks[k].wake.Got? :: Carried(ticks[k].wake.datagram, sent)
  }

  predicate Carried(data: Bytes, sent: set<Packet>) { exists packet <- sent :: packet.data == data }

  /** The list `discover` returns: in every run of any mix of responders, over a network that
      loses, repeats and reorders, every record in it is safe. */
  lemma ReturnedSafely(w: World, trace: seq<Net>, steps: seq<Step>, i: nat, ticks: seq<Tick>,
                       records: seq<Dict>, m: Dict) returns (packet: Packet)
    requires WorldOk(w) && Run(w, trace, steps) && i < |trace| && FromNetwork(w.c, ticks, trace[i].sent)
    requires records == Sorted(Values(Loop(w.c, Start(w.c), ticks, w.lib).found)) && m in records
    ensures Safe(w, trace[i].sent, Entry(IdOf(m), PDict(m)), packet)
  {
    InvHolds(w, trace, steps, i);
    hide Run, WorldOk, Safe, Loop, Sorted, Values, IdOf, Inv, Accepted;
    var k := NoneInvented(w.c, ticks, w.lib, m);
    assert Carried(ticks[k].wake.datagram, trace[i].sent);
    packet := HeardSafely(w, trace[i], Entry(IdOf(m), PDict(m)));
  }

  lemma OursIfEchoed(w: World, s: Net, packet: Packet)
    requires Inv(w, s) && packet in s.sent && packet.Reply? && packet.at < |w.nodes|
    requires Echoes(w.nodes[packet.at], packet.query.data, w.c.qid)
    ensures packet.query.Query? && packet.query.data == w.payload
  {
    hide Answers, Announces, Echoes, Accepted;
    assert PacketOk(w, s.sent, packet);
    assert PacketOk(w, s.sent, packet.query);
    assert w.nodes[packet.at] in w.nodes;
  }

  /** Causality stops after one reply: whatever a responder answers was asked by a client, never
      announced by a responder; and replies never outnumber the DISCOVERs delivered. */
  lemma DepthTwo(w: World, trace: seq<Net>, steps: seq<Step>, i: nat, packet: Packet)
    requires WorldOk(w) && Run(w, trace, steps) && i < |trace|
    requires packet in trace[i].sent && packet.Reply?
    ensures Asks(packet.query) && packet.query in trace[i].sent && packet.to == packet.query.from
    ensures trace[i].replies <= trace[i].deliveries
  {
    InvHolds(w, trace, steps, i);
    assert PacketOk(w, trace[i].sent, packet);
  }
}
