/** One client and any mix of Python and C++ responders on a network that loses, repeats and
    reorders datagrams and delivers them by several routes: a packet once sent may be delivered
    to anyone, any number of times, at any later step, or never. */
module Network {
  import opened Bytes
  import opened PyText
  import opened PyJson
  import opened CppMessages
  import opened CppAnnounce
  import opened CppToPython
  import opened Protocol
  import opened ProtocolProofs
  import opened Client
  import opened ClientResult
  import opened ClientQueries
  import opened Agreement
  import opened Silence
  import opened Utf8
  import Descent
  import ResponderLog
  import P = PyLoop
  import PP = PyLoopProofs
  import C = CppLoop
  import CP = CppLoopProofs

  type Address = ResponderLog.Address

  datatype Node = Py(py: P.Config) | Cpp(cpp: C.Config)

  /** What the languages guarantee of a configuration: dict and map keys are distinct. */
  predicate ConfigOk(n: Node) {
    match n
    case Py(cfg) => RealDict(cfg.service.meta)
    case Cpp(cfg) => MapKeys(cfg.me.opt.meta)
  }

  /** `reply` is a reply `n` makes to `query`: what each loop's log is proved to hold. */
  ghost predicate Answers(n: Node, query: Bytes, reply: Bytes) {
    match n
    case Py(cfg) => PP.ReplyTo(cfg, query, reply)
    case Cpp(cfg) =>
      var answer := CppAnswer(query, cfg.me.opt, cfg.stod, cfg.glob);
      answer.Reply? && reply == AnnounceText(cfg.me, answer.qid, cfg.show)
  }

  ghost predicate CanAnswer(n: Node, query: Bytes) { exists reply :: Answers(n, query, reply) }

  /** `data` is a periodic announce of `n`. */
  ghost predicate Announces(n: Node, data: Bytes) {
    match n
    case Py(cfg) => exists p :: Encoded(P.Announce(cfg, None, p)) == Some(data)
    case Cpp(cfg) => data == AnnounceText(cfg.me, None, cfg.show)
  }

  predicate IsDiscoverTo(n: Node, data: Bytes) {
    match n
    case Py(_) => PP.IsDiscover(data)
    case Cpp(cfg) => CP.Discovers(cfg)(data)
  }

  /** The id `n` would echo is `qid`. */
  predicate Echoes(n: Node, data: Bytes, qid: Str) {
    match n
    case Py(_) =>
      (match Decoded(data[..Min(|data|, MAX_DATAGRAM + 1)])
       case Some(msg) => Get(msg, K_QID) == Some(PStr(qid))
       case None => false)
    case Cpp(cfg) =>
      CppAnswer(data, cfg.me.opt, cfg.stod, cfg.glob) == Answer.Reply(Some(Encode(qid)))
  }

  datatype Packet =
    | Query(from: Address, data: Bytes)                                // the client's
    | Foreign(from: Address, data: Bytes)                              // anyone else's
    | Reply(from: Address, data: Bytes, at: nat, to: Address, query: Packet)
    | Beacon(from: Address, data: Bytes, at: nat)

  /** The client's call, what it sends, and the responders. */
  datatype World = World(c: Call, lib: Lib, payload: Bytes, nodes: seq<Node>)

  ghost predicate WorldOk(w: World) {
    && (forall n <- w.nodes :: ConfigOk(n)) && RealDict(w.c.filter)
    && BuildQuery(w.c.filter, Some(w.c.qid), w.c.qid).Some?
    && Encoded(BuildQuery(w.c.filter, Some(w.c.qid), w.c.qid).value) == Some(w.payload)
  }

  /** Nobody else forges announces or draws the same query id. */
  ghost predicate Honest(w: World, data: Bytes) {
    && (match Decoded(data[..Min(|data|, MAX_DATAGRAM + 1)])
        case Some(msg) => Get(msg, K_TYPE) != Some(PStr(ANNOUNCE))
        case None => true)
    && forall n <- w.nodes :: !Echoes(n, data, w.c.qid)
  }

  /** A query a responder has decided to answer and is sleeping over. */
  datatype Owed = Owed(at: nat, query: Packet)

  datatype Net = Net(sent: set<Packet>, owed: multiset<Owed>, found: Dict, deliveries: nat, replies: nat)

  datatype Step =
    | ClientSends(from: Address)
    | ForeignSends(from: Address, data: Bytes)
    | NodeAnnounces(at: nat, from: Address, data: Bytes)
    | Delivered(at: nat, packet: Packet, answered: bool)
    | NodeReplies(owed: Owed, from: Address, data: Bytes)
    | ClientReceives(packet: Packet)

  predicate Init(s: Net) { s == Net({}, multiset{}, [], 0, 0) }

  ghost predicate Next(w: World, s: Net, step: Step, t: Net) {
    match step
    case ClientSends(from) => t == s.(sent := s.sent + {Query(from, w.payload)})
    case ForeignSends(from, data) => Honest(w, data) && t == s.(sent := s.sent + {Foreign(from, data)})
    case NodeAnnounces(at, from, data) =>
      at < |w.nodes| && Announces(w.nodes[at], data) && t == s.(sent := s.sent + {Packet.Beacon(from, data, at)})
    case Delivered(at, packet, answered) =>
      && at < |w.nodes| && packet in s.sent && (answered ==> CanAnswer(w.nodes[at], packet.data))
      && t == s.(deliveries := s.deliveries + (if IsDiscoverTo(w.nodes[at], packet.data) then 1 else 0),
                 owed := if answered then s.owed + multiset{Owed(at, packet)} else s.owed)
    case NodeReplies(owed, from, data) =>
      && owed in s.owed && owed.at < |w.nodes| && Answers(w.nodes[owed.at], owed.query.data, data)
      && t == s.(sent := s.sent + {Packet.Reply(from, data, owed.at, owed.query.from, owed.query)},
                 owed := s.owed - multiset{owed}, replies := s.replies + 1)
    case ClientReceives(packet) =>
      && packet in s.sent
      && t == (match Accepted(w.c, packet.data, w.lib)
               case None => s
               case Some(e) => s.(found := SetItem(s.found, e.key, e.val)))
  }

  ghost predicate Run(w: World, trace: seq<Net>, steps: seq<Step>) {
    && |trace| == |steps| + 1 && Init(trace[0])
    && forall i: nat | i < |steps| :: Next(w, trace[i], steps[i], trace[i + 1])
  }

  // ---- invariant ----

  predicate Asks(packet: Packet) { packet.Query? || packet.Foreign? }

  ghost predicate PacketOk(w: World, sent: set<Packet>, packet: Packet) {
    match packet
    case Query(_, data) => data == w.payload
    case Foreign(_, data) => Honest(w, data)
    case Reply(_, data, at, to, query) =>
      && at < |w.nodes| && Answers(w.nodes[at], query.data, data)
      && Asks(query) && query in sent && to == query.from
    case Beacon(_, data, at) => at < |w.nodes| && Announces(w.nodes[at], data)
  }

  ghost predicate OwedOk(w: World, sent: set<Packet>, o: Owed) { o.at < |w.nodes| && o.query in sent && Asks(o.query) }

  ghost predicate Heard(w: World, sent: set<Packet>, e: Entry) {
    exists packet <- sent :: Accepted(w.c, packet.data, w.lib) == Some(e)
  }

  ghost predicate PacketsOk(w: World, sent: set<Packet>) { forall packet <- sent :: PacketOk(w, sent, packet) }

  ghost predicate DebtsOk(w: World, sent: set<Packet>, owed: multiset<Owed>) { forall o <- owed :: OwedOk(w, sent, o) }

  ghost predicate FoundOk(w: World, sent: set<Packet>, found: Dict) { forall e <- found :: Heard(w, sent, e) }

  ghost predicate Inv(w: World, s: Net) {
    && PacketsOk(w, s.sent) && DebtsOk(w, s.sent, s.owed) && FoundOk(w, s.sent, s.found)
    && s.replies + |s.owed| <= s.deliveries
  }

  // ---- announces start nothing ----

  lemma PyAnswered(cfg: P.Config, query: Bytes, reply: Bytes) returns (seen: Process, p: Process, q: Str)
    requires PP.ReplyTo(cfg, query, reply)
    ensures Encoded(P.Announce(cfg, Some(q), p)) == Some(reply)
    ensures PyAnswer(query, P.Announce(cfg, None, seen), cfg.lib) == Answer.Reply(Some(PStr(q)))
  {
    seen, p :| PP.ReplyAs(cfg, query, reply, seen, p);
    PP.AnsweredQid(P.Announce(cfg, None, seen), query, cfg.lib);
    q := PyAnswer(query, P.Announce(cfg, None, seen), cfg.lib).qid.value.s;
  }

  /** What a responder sends is an ANNOUNCE of its own, with or without an id. */
  ghost predicate Says(n: Node, data: Bytes) {
    match n
    case Py(cfg) => exists p, qid :: Encoded(P.Announce(cfg, qid, p)) == Some(data)
    case Cpp(cfg) => exists qid :: data == AnnounceText(cfg.me, qid, cfg.show)
  }

  lemma SaysSent(n: Node, query: Bytes, data: Bytes)
    requires Answers(n, query, data) || Announces(n, data)
    ensures Says(n, data)
  {
    hide P.Announce, AnnounceText, CppAnswer, Encoded, PyAnswer;
    if n.Py? && Answers(n, query, data) { var seen, p, q := PyAnswered(n.py, query, data); }
  }

  /** No responder, in either language, answers what any responder says. */
  lemma NodesIgnoreAnnounces(n: Node, data: Bytes, m: Node)
    requires Says(n, data) && ConfigOk(n)
    ensures !CanAnswer(m, data)
  {
    forall reply ensures !Answers(m, data, reply) {
      if n.Py? {
        var p, qid :| Encoded(P.Announce(n.py, qid, p)) == Some(data);
        var a := AboutService(n.py.service, n.py.id, None, p);
        if m.Py? {
          forall seen, p' ensures !PP.ReplyAs(m.py, data, reply, seen, p') {
            PyIgnoresPy(a, qid, n.py.service.meta, P.Announce(m.py, None, seen), m.py.lib);
          }
        } else {
          CppIgnoresPy(a, qid, n.py.service.meta, m.cpp.me.opt, m.cpp.stod, m.cpp.glob);
        }
      } else {
        var qid :| data == AnnounceText(n.cpp.me, qid, n.cpp.show);
        if m.Py? {
          forall seen, p' ensures !PP.ReplyAs(m.py, data, reply, seen, p') {
            PyIgnoresCpp(n.cpp.me, qid, n.cpp.show, P.Announce(m.py, None, seen), m.py.lib);
          }
        } else {
          CppIgnoresCpp(n.cpp.me, qid, n.cpp.show, m.cpp.me.opt, m.cpp.stod, m.cpp.glob);
        }
      }
    }
  }

  lemma AnsweredIsDiscover(n: Node, data: Bytes)
    requires CanAnswer(n, data)
    ensures IsDiscoverTo(n, data)
  {
    var reply :| Answers(n, data, reply);
    if n.Py? {
      var seen, p, q := PyAnswered(n.py, data, reply);
      PP.OnlyDiscoverAnswered(P.Announce(n.py, None, seen), data, n.py.lib);
    } else {
      CP.OnlyDiscoverAnswered(n.cpp, data);
    }
  }

  lemma OnlyQuestionsAnswered(w: World, s: Net, packet: Packet, at: nat)
    requires WorldOk(w) && Inv(w, s) && packet in s.sent && at < |w.nodes| && CanAnswer(w.nodes[at], packet.data)
    ensures Asks(packet) && IsDiscoverTo(w.nodes[at], packet.data)
  {
    hide CanAnswer, IsDiscoverTo, Answers, Announces, Says, ConfigOk, Encoded, BuildQuery;
    AnsweredIsDiscover(w.nodes[at], packet.data);
    assert PacketOk(w, s.sent, packet);
    if !Asks(packet) {
      var n := w.nodes[packet.at];
      assert n in w.nodes;
      SaysSent(n, if packet.Reply? then packet.query.data else [], packet.data);
      NodesIgnoreAnnounces(n, packet.data, w.nodes[at]);
    }
  }

  // ---- every step keeps the invariant ----

  /** More packets on the network spoil nothing. */
  lemma Grows(w: World, s: Net, t: Net, packet: Packet)
    requires Inv(w, s) && t.sent == s.sent + {packet} && t.owed <= s.owed && t.found == s.found
    requires PacketOk(w, t.sent, packet) && t.replies + |t.owed| <= t.deliveries
    ensures Inv(w, t)
  {
    hide Answers, Announces, Honest, Accepted;
    forall q | q in t.sent ensures PacketOk(w, t.sent, q) {
      if q != packet { assert PacketOk(w, s.sent, q); }
    }
    forall o | o in t.owed ensures OwedOk(w, t.sent, o) { assert o in s.owed && OwedOk(w, s.sent, o); }
    forall e | e in t.found ensures Heard(w, t.sent, e) { assert Heard(w, s.sent, e); }
  }

  lemma OneMoreDebt(w: World, sent: set<Packet>, owed: multiset<Owed>, o: Owed)
    requires DebtsOk(w, sent, owed) && OwedOk(w, sent, o)
    ensures DebtsOk(w, sent, owed + multiset{o}) && |owed + multiset{o}| == |owed| + 1
  {
    hide OwedOk;
  }

  lemma Delivers(w: World, s: Net, t: Net, at: nat, packet: Packet, answered: bool)
    requires WorldOk(w) && Inv(w, s) && Next(w, s, Delivered(at, packet, answered), t)
    ensures Inv(w, t)
  {
    if answered {
      OnlyQuestionsAnswered(w, s, packet, at);
      OneMoreDebt(w, s.sent, s.owed, Owed(at, packet));
    }
    hide IsDiscoverTo, CanAnswer, WorldOk, PacketsOk, DebtsOk, FoundOk;
  }

  lemma Hears(w: World, s: Net, t: Net, packet: Packet)
    requires Inv(w, s) && Next(w, s, ClientReceives(packet), t)
    ensures Inv(w, t)
  {
    hide Accepted, SetItem, PacketsOk, DebtsOk;
    var found := Accepted(w.c, packet.data, w.lib);
    if found.Some? { SetItemGet(s.found, found.value.key, found.value.val, []); }
    forall e | e in t.found ensures Heard(w, t.sent, e) {
      if e in s.found { assert Heard(w, s.sent, e); }
    }
  }

  lemma PaysOff(w: World, s: Net, t: Net, owed: Owed, from: Address, data: Bytes)
    requires Inv(w, s) && Next(w, s, NodeReplies(owed, from, data), t)
    ensures Inv(w, t)
  {
    hide Answers, Announces, Honest, Accepted, Heard, FoundOk, PacketsOk;
    assert OwedOk(w, s.sent, owed);
    assert |t.owed| == |s.owed| - 1;
    Grows(w, s, t, Packet.Reply(from, data, owed.at, owed.query.from, owed.query));
  }

  lemma InvNext(w: World, s: Net, step: Step, t: Net)
    requires WorldOk(w) && Inv(w, s) && Next(w, s, step, t)
    ensures Inv(w, t)
  {
    hide Answers, Announces, Honest, Accepted, CanAnswer, IsDiscoverTo, WorldOk, PacketsOk, DebtsOk, FoundOk;
    match step
    case ClientSends(from) => Grows(w, s, t, Query(from, w.payload));
    case ForeignSends(from, data) => Grows(w, s, t, Foreign(from, data));
    case NodeAnnounces(at, from, data) => Grows(w, s, t, Packet.Beacon(from, data, at));
    case Delivered(at, packet, answered) => Delivers(w, s, t, at, packet, answered);
    case NodeReplies(owed, from, data) => PaysOff(w, s, t, owed, from, data);
    case ClientReceives(packet) => Hears(w, s, t, packet);
  }

  lemma {:induction false} InvHolds(w: World, trace: seq<Net>, steps: seq<Step>, i: nat)
    requires WorldOk(w) && Run(w, trace, steps) && i < |trace|
    ensures Inv(w, trace[i])
  {
    hide Inv, Next, WorldOk;
    if i == 0 {
      InvInit(w, trace[0]);
    } else {
      InvHolds(w, trace, steps, i - 1);
      assert Next(w, trace[i - 1], steps[i - 1], trace[i - 1 + 1]);
      InvNext(w, trace[i - 1], steps[i - 1], trace[i]);
    }
  }

  lemma InvInit(w: World, s: Net)
    requires Init(s)
    ensures Inv(w, s)
  {
  }
}
