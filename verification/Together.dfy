/** The loops themselves on one network: any interleaving of the logs of any responders, one
    client's loop and strangers, in which every datagram received was sent before, is a run of
    `Network`. */
module Together {
  import opened Bytes
  import opened PyJson
  import opened Client
  import opened ClientResult
  import opened Ranking
  import opened ResponderLog
  import opened LoopsAreNodes
  import opened NetworkSafety
  import N = Network
  import P = PyLoop
  import C = CppLoop

  datatype Act =
    | Did(at: nat, event: Event, from: Address)     // a responder, which sends from `from`
    | Asked(from: Address)                          // the client transmits its query
    | Heard(from: Address, data: Bytes)             // the client receives
    | Spoke(from: Address, data: Bytes)             // a stranger sends

  /** What an act sends, and from where. */
  function Sent(w: N.World, a: Act): Option<(Address, Bytes)> {
    match a
    case Did(_, Reply(_, _, data), from) => Some((from, data))
    case Did(_, Beacon(_, data), from) => Some((from, data))
    case Asked(from) => Some((from, w.payload))
    case Spoke(from, data) => Some((from, data))
    case _ => None
  }

  /** What an act receives, and from where. */
  function Got(a: Act): Option<(Address, Bytes)> {
    match a
    case Did(_, Received(from, data), _) => Some((from, data))
    case Heard(from, data) => Some((from, data))
    case _ => None
  }

  /** Whatever is received was sent before: loss, repetition and reordering are all allowed. */
  ghost predicate Causal(w: N.World, h: seq<Act>) {
    forall i | 0 <= i < |h| && Got(h[i]).Some? :: exists a <- h[..i] :: Sent(w, a) == Got(h[i])
  }

  /** The events of one responder. */
  function NodeLog(h: seq<Act>, k: nat): seq<Event> {
    if h == [] then []
    else
      var a := h[|h| - 1];
      NodeLog(h[..|h| - 1], k) + if a.Did? && a.at == k then [a.event] else []
  }

  /** The datagrams the client receives. */
  function HeardBy(h: seq<Act>): seq<Bytes> {
    if h == [] then []
    else
      var a := h[|h| - 1];
      HeardBy(h[..|h| - 1]) + if a.Heard? then [a.data] else []
  }

  /** `log` is the log of a run of the loop. */
  ghost predicate LoopLog(n: N.Node, log: seq<Event>) {
    match n
    case Py(cfg) => exists next, steps :: log == P.Log(cfg, next, steps)
    case Cpp(cfg) => exists next, steps :: log == C.Log(cfg, next, steps)
  }

  ghost predicate Acts(w: N.World, h: seq<Act>) {
    forall a <- h :: (a.Did? ==> a.at < |w.nodes|) && (a.Spoke? ==> N.Honest(w, a.data))
  }

  /** `logs` are runs of the responders' loops, and `h` interleaves the beginnings of them. */
  ghost predicate Interleaves(w: N.World, h: seq<Act>, logs: seq<seq<Event>>) {
    && |logs| == |w.nodes| && Acts(w, h) && Causal(w, h)
    && forall k | 0 <= k < |logs| :: LoopLog(w.nodes[k], logs[k]) && NodeLog(h, k) <= logs[k]
  }

  // ---- what holds of the network after the acts ----

  predicate Carries(sent: set<N.Packet>, d: (Address, Bytes)) { exists p <- sent :: (p.from, p.data) == d }

  ghost predicate AllSent(w: N.World, h: seq<Act>, sent: set<N.Packet>) {
    && (forall a <- h :: Sent(w, a).Some? ==> Carries(sent, Sent(w, a).value))
    && (forall p <- sent :: exists a <- h :: Sent(w, a) == Some((p.from, p.data)))
  }

  predicate Owes(owed: multiset<N.Owed>, k: nat, from: Address, data: Bytes) {
    exists o <- owed :: o.at == k && o.query.from == from && o.query.data == data
  }

  /** The query received at `i` is answered two events later. */
  predicate Answered(log: seq<Event>, i: nat) { i + 2 < |log| && log[i].Received? && log[i + 2].Reply? }

  /** After `n` events of its log the node still owes the replies that are to come. */
  predicate Pends(log: seq<Event>, n: nat, k: nat, owed: multiset<N.Owed>) {
    forall i: nat | n - 2 <= i < n && Answered(log, i) :: Owes(owed, k, log[i].from, log[i].data)
  }

  predicate AllPend(h: seq<Act>, logs: seq<seq<Event>>, owed: multiset<N.Owed>) {
    forall k | 0 <= k < |logs| :: Pends(logs[k], |NodeLog(h, k)|, k, owed)
  }

  /** What the client has recorded after these datagrams. */
  function FoundOf(w: N.World, data: seq<Bytes>): Dict {
    if data == [] then []
    else
      var found := FoundOf(w, data[..|data| - 1]);
      match Accepted(w.c, data[|data| - 1], w.lib)
      case None => found
      case Some(e) => SetItem(found, e.key, e.val)
  }

  ghost predicate Tracks(w: N.World, h: seq<Act>, logs: seq<seq<Event>>, s: N.Net) {
    AllSent(w, h, s.sent) && AllPend(h, logs, s.owed) && s.found == FoundOf(w, HeardBy(h))
  }

  // ---- one more act ----

  lemma Snoc(h: seq<Act>, a: Act)
    ensures forall k: nat ::
              NodeLog(h + [a], k) == if a.Did? && a.at == k then NodeLog(h, k) + [a.event] else NodeLog(h, k)
    ensures HeardBy(h + [a]) == if a.Heard? then HeardBy(h) + [a.data] else HeardBy(h)
  {
    assert (h + [a])[..|h|] == h;
    assert forall k: nat :: NodeLog(h, k) + [] == NodeLog(h, k);
    assert HeardBy(h) + [] == HeardBy(h);
  }

  lemma Before(w: N.World, h: seq<Act>, a: Act, logs: seq<seq<Event>>)
    requires Interleaves(w, h + [a], logs)
    ensures Interleaves(w, h, logs)
    ensures |logs| == |w.nodes| && (a.Did? ==> a.at < |logs| && LoopLog(w.nodes[a.at], logs[a.at]))
    ensures a.Did? ==> |NodeLog(h, a.at)| < |logs[a.at]| && logs[a.at][|NodeLog(h, a.at)|] == a.event
    ensures Got(a).Some? ==> exists b <- h :: Sent(w, b) == Got(a)
  {
    Snoc(h, a);
    hide LoopLog, N.Honest, Sent, Got, NodeLog;
    forall b | b in h ensures b in h + [a] {}
    assert a in h + [a];
    forall i | 0 <= i < |h| ensures (h + [a])[..i] == h[..i] && (h + [a])[i] == h[i] {}
    assert (h + [a])[..|h|] == h && (h + [a])[|h|] == a;
    forall k | 0 <= k < |logs| ensures NodeLog(h, k) <= logs[k] {
      assert NodeLog(h, k) <= NodeLog(h + [a], k);
    }
    if a.Did? {
      var n := |NodeLog(h, a.at)|;
      assert NodeLog(h + [a], a.at)[n] == a.event;
    }
  }

  lemma Good(n: N.Node, log: seq<Event>, i: nat)
    requires LoopLog(n, log) && i < |log|
    ensures NodeSends(n, log, i)
  {
    if n.Py? {
      var next, steps :| log == P.Log(n.py, next, steps);
      PyLoopIsNode(n.py, next, steps, i);
    } else {
      var next, steps :| log == C.Log(n.cpp, next, steps);
      CppLoopIsNode(n.cpp, next, steps, i);
    }
  }

  lemma Find(w: N.World, h: seq<Act>, sent: set<N.Packet>, from: Address, data: Bytes) returns (p: N.Packet)
    requires AllSent(w, h, sent) && exists a <- h :: Sent(w, a) == Some((from, data))
    ensures p in sent && p.from == from && p.data == data
  {
    var a :| a in h && Sent(w, a) == Some((from, data));
    assert Carries(sent, Sent(w, a).value);
    p :| p in sent && (p.from, p.data) == (from, data);
  }

  /** A packet joins the network. */
  lemma SentMore(w: N.World, h: seq<Act>, a: Act, sent: set<N.Packet>, p: N.Packet)
    requires AllSent(w, h, sent) && Sent(w, a) == Some((p.from, p.data))
    ensures AllSent(w, h + [a], sent + {p})
  {
    forall b | b in h + [a] && Sent(w, b).Some? ensures Carries(sent + {p}, Sent(w, b).value) {
      if b in h {
        var q :| q in sent && (q.from, q.data) == Sent(w, b).value;
        assert q in sent + {p};
      } else {
        assert p in sent + {p};
      }
    }
    forall q | q in sent + {p} ensures exists b <- h + [a] :: Sent(w, b) == Some((q.from, q.data)) {
      if q in sent {
        var b :| b in h && Sent(w, b) == Some((q.from, q.data));
        assert b in h + [a];
      } else {
        assert a in h + [a];
      }
    }
  }

  lemma SentSame(w: N.World, h: seq<Act>, a: Act, sent: set<N.Packet>)
    requires AllSent(w, h, sent) && Sent(w, a).None?
    ensures AllSent(w, h + [a], sent)
  {
    forall q | q in sent ensures exists b <- h + [a] :: Sent(w, b) == Some((q.from, q.data)) {
      var b :| b in h && Sent(w, b) == Some((q.from, q.data));
      assert b in h + [a];
    }
  }

  /** An event that neither receives nor replies leaves all debts as they are. */
  lemma PendsOn(log: seq<Event>, n: nat, k: nat, owed: multiset<N.Owed>)
    requires Pends(log, n, k, owed) && n < |log| && !log[n].Received?
    ensures Pends(log, n + 1, k, owed)
  {
    hide Owes;
  }

  /** Other nodes' debts stay. */
  lemma AllPendOn(h: seq<Act>, a: Act, logs: seq<seq<Event>>, owed: multiset<N.Owed>, owed': multiset<N.Owed>)
    requires AllPend(h, logs, owed) && forall o <- owed :: o in owed' || (a.Did? && o.at == a.at)
    requires a.Did? && a.at < |logs| ==> Pends(logs[a.at], |NodeLog(h, a.at)| + 1, a.at, owed')
    ensures AllPend(h + [a], logs, owed')
  {
    Snoc(h, a);
    hide NodeLog;
    forall k | 0 <= k < |logs| ensures Pends(logs[k], |NodeLog(h + [a], k)|, k, owed') {
      if !(a.Did? && a.at == k) {
        assert Pends(logs[k], |NodeLog(h, k)|, k, owed);
        forall i: nat | |NodeLog(h, k)| - 2 <= i < |NodeLog(h, k)| && Answered(logs[k], i)
          ensures Owes(owed', k, logs[k][i].from, logs[k][i].data)
        {
          var o :| o in owed && o.at == k && o.query.from == logs[k][i].from && o.query.data == logs[k][i].data;
          assert o in owed';
        }
      }
    }
  }

  lemma DebtHere(h: seq<Act>, logs: seq<seq<Event>>, owed: multiset<N.Owed>, k: nat)
    requires AllPend(h, logs, owed) && k < |logs|
    ensures Pends(logs[k], |NodeLog(h, k)|, k, owed)
  {
    hide NodeLog, Pends;
  }

  /** A responder receives. */
  lemma Takes(w: N.World, h: seq<Act>, a: Act, logs: seq<seq<Event>>, s: N.Net) returns (step: N.Step, t: N.Net)
    requires a.Did? && a.event.Received? && Interleaves(w, h + [a], logs) && Tracks(w, h, logs, s)
    ensures N.Next(w, s, step, t) && Tracks(w, h + [a], logs, t)
  {
    hide Interleaves, LoopLog, HeardBy, NodeLog, N.Answers, N.Announces, AllSent, AllPend, Pends, FoundOf,
         N.IsDiscoverTo, Owes;
    Before(w, h, a, logs);
    var k, from, data := a.at, a.event.from, a.event.data;
    var n, log := |NodeLog(h, k)|, logs[k];
    var p := Find(w, h, s.sent, from, data);
    var answered := Answered(log, n);
    if answered { Good(w.nodes[k], log, n + 2); }
    var o := N.Owed(k, p);
    step := N.Delivered(k, p, answered);
    t := s.(deliveries := s.deliveries + (if N.IsDiscoverTo(w.nodes[k], data) then 1 else 0),
            owed := if answered then s.owed + multiset{o} else s.owed);
    assert answered ==> N.CanAnswer(w.nodes[k], data);
    hide N.CanAnswer, Answered;
    Snoc(h, a);
    SentSame(w, h, a, s.sent);
    DebtHere(h, logs, s.owed, k);
    Pending(log, n, k, s.owed, t.owed, o);
    AllPendOn(h, a, logs, s.owed, t.owed);
  }

  lemma Pending(log: seq<Event>, n: nat, k: nat, owed: multiset<N.Owed>, owed': multiset<N.Owed>, o: N.Owed)
    requires Pends(log, n, k, owed) && n < |log| && log[n].Received? && o.at == k
    requires o.query.from == log[n].from && o.query.data == log[n].data
    requires owed' == if Answered(log, n) then owed + multiset{o} else owed
    ensures Pends(log, n + 1, k, owed')
  {
    forall i: nat | n - 1 <= i < n + 1 && Answered(log, i) ensures Owes(owed', k, log[i].from, log[i].data) {
      if i == n {
        assert o in owed';
      } else {
        var q :| q in owed && q.at == k && q.query.from == log[i].from && q.query.data == log[i].data;
        assert q in owed';
      }
    }
  }

  /** The debt a reply pays. */
  lemma DebtPaid(n: N.Node, log: seq<Event>, i: nat, k: nat, owed: multiset<N.Owed>) returns (o: N.Owed)
    requires i < |log| && log[i].Reply? && NodeSends(n, log, i) && Pends(log, i, k, owed)
    ensures o in owed && o.at == k && N.Answers(n, o.query.data, log[i].data)
    ensures Pends(log, i + 1, k, owed - multiset{o})
  {
    hide N.Answers;
    assert Answered(log, i - 2);
    assert Owes(owed, k, log[i - 2].from, log[i - 2].data);
    o :| o in owed && o.at == k && o.query.from == log[i - 2].from && o.query.data == log[i - 2].data;
    hide Owes;
  }

  /** A responder replies to the query it received two events ago. */
  lemma Replies(w: N.World, h: seq<Act>, a: Act, logs: seq<seq<Event>>, s: N.Net) returns (step: N.Step, t: N.Net)
    requires a.Did? && a.event.Reply? && Interleaves(w, h + [a], logs) && Tracks(w, h, logs, s)
    ensures N.Next(w, s, step, t) && Tracks(w, h + [a], logs, t)
  {
    hide Interleaves, LoopLog, HeardBy, NodeLog, NodeSends, N.Answers, N.Announces, AllSent, AllPend, Pends, FoundOf;
    Before(w, h, a, logs);
    var k, data, n, log := a.at, a.event.data, |NodeLog(h, a.at)|, logs[a.at];
    Good(w.nodes[k], log, n);
    DebtHere(h, logs, s.owed, k);
    var o := DebtPaid(w.nodes[k], log, n, k, s.owed);
    var p := N.Packet.Reply(a.from, data, k, o.query.from, o.query);
    step := N.NodeReplies(o, a.from, data);
    t := s.(sent := s.sent + {p}, owed := s.owed - multiset{o}, replies := s.replies + 1);
    assert N.Next(w, s, step, t);
    hide N.Next, Owes;
    Snoc(h, a);
    SentMore(w, h, a, s.sent, p);
    AllPendOn(h, a, logs, s.owed, t.owed);
  }

  lemma GoodBeacon(n: N.Node, log: seq<Event>, i: nat)
    requires LoopLog(n, log) && i < |log| && log[i].Beacon?
    ensures N.Announces(n, log[i].data)
  {
    Good(n, log, i);
  }

  lemma Announces(w: N.World, h: seq<Act>, a: Act, logs: seq<seq<Event>>, s: N.Net) returns (step: N.Step, t: N.Net)
    requires a.Did? && a.event.Beacon? && Interleaves(w, h + [a], logs) && Tracks(w, h, logs, s)
    ensures N.Next(w, s, step, t) && Tracks(w, h + [a], logs, t)
  {
    hide Interleaves, LoopLog, HeardBy, NodeLog, NodeSends, N.Answers, N.Announces, AllSent, AllPend, Pends, FoundOf;
    Before(w, h, a, logs);
    var k, data, n := a.at, a.event.data, |NodeLog(h, a.at)|;
    GoodBeacon(w.nodes[k], logs[k], n);
    var p := N.Packet.Beacon(a.from, data, k);
    step := N.NodeAnnounces(k, a.from, data);
    t := s.(sent := s.sent + {p});
    Snoc(h, a);
    SentMore(w, h, a, s.sent, p);
    DebtHere(h, logs, s.owed, k);
    PendsOn(logs[k], n, k, s.owed);
    AllPendOn(h, a, logs, s.owed, t.owed);
  }

  /** A look at the flag, or a loop's end, is nothing to the network. */
  lemma Looks(w: N.World, h: seq<Act>, a: Act, logs: seq<seq<Event>>, s: N.Net)
    requires a.Did? && (a.event.Read? || a.event.Crash?) && Interleaves(w, h + [a], logs) && Tracks(w, h, logs, s)
    ensures Tracks(w, h + [a], logs, s)
  {
    hide Interleaves, LoopLog, HeardBy, NodeLog, AllSent, AllPend, Pends, FoundOf;
    Before(w, h, a, logs);
    Snoc(h, a);
    SentSame(w, h, a, s.sent);
    DebtHere(h, logs, s.owed, a.at);
    PendsOn(logs[a.at], |NodeLog(h, a.at)|, a.at, s.owed);
    AllPendOn(h, a, logs, s.owed, s.owed);
  }

  lemma Honestly(w: N.World, h: seq<Act>, a: Act, logs: seq<seq<Event>>)
    requires Interleaves(w, h + [a], logs) && a.Spoke?
    ensures N.Honest(w, a.data)
  {
    assert a in h + [a];
    hide N.Honest, LoopLog, Causal, NodeLog;
  }

  /** The client transmits, or a stranger. */
  lemma Speaks(w: N.World, h: seq<Act>, a: Act, logs: seq<seq<Event>>, s: N.Net) returns (step: N.Step, t: N.Net)
    requires (a.Asked? || a.Spoke?) && Interleaves(w, h + [a], logs) && Tracks(w, h, logs, s)
    ensures N.Next(w, s, step, t) && Tracks(w, h + [a], logs, t)
  {
    hide Interleaves, HeardBy, NodeLog, N.Honest, AllSent, AllPend, Pends, FoundOf;
    if a.Spoke? { Honestly(w, h, a, logs); }
    var p := if a.Asked? then N.Query(a.from, w.payload) else N.Foreign(a.from, a.data);
    step := if a.Asked? then N.ClientSends(a.from) else N.ForeignSends(a.from, a.data);
    t := s.(sent := s.sent + {p});
    Snoc(h, a);
    SentMore(w, h, a, s.sent, p);
    AllPendOn(h, a, logs, s.owed, t.owed);
  }

  lemma Hears(w: N.World, h: seq<Act>, a: Act, logs: seq<seq<Event>>, s: N.Net) returns (step: N.Step, t: N.Net)
    requires a.Heard? && Interleaves(w, h + [a], logs) && Tracks(w, h, logs, s)
    ensures N.Next(w, s, step, t) && Tracks(w, h + [a], logs, t)
  {
    hide Interleaves, HeardBy, NodeLog, AllSent, AllPend, Pends, FoundOf, Accepted, SetItem;
    Before(w, h, a, logs);
    var p := Find(w, h, s.sent, a.from, a.data);
    step := N.ClientReceives(p);
    t := match Accepted(w.c, p.data, w.lib)
         case None => s
         case Some(e) => s.(found := SetItem(s.found, e.key, e.val));
    Snoc(h, a);
    OneFound(w, HeardBy(h), a.data);
    SentSame(w, h, a, s.sent);
    AllPendOn(h, a, logs, s.owed, t.owed);
  }

  lemma OneFound(w: N.World, data: seq<Bytes>, d: Bytes)
    ensures FoundOf(w, data + [d]) ==
            match Accepted(w.c, d, w.lib)
            case None => FoundOf(w, data)
            case Some(e) => SetItem(FoundOf(w, data), e.key, e.val)
  {
    assert (data + [d])[..|data|] == data;
  }

  // ---- a run ----

  lemma OneAct(w: N.World, h: seq<Act>, a: Act, logs: seq<seq<Event>>, trace: seq<N.Net>, steps: seq<N.Step>)
    returns (trace': seq<N.Net>, steps': seq<N.Step>)
    requires Interleaves(w, h + [a], logs) && N.Run(w, trace, steps) && Tracks(w, h, logs, trace[|trace| - 1])
    ensures N.Run(w, trace', steps') && Tracks(w, h + [a], logs, trace'[|trace'| - 1])
  {
    var s, step, t := trace[|trace| - 1], N.ClientSends(0), trace[|trace| - 1];
    hide Interleaves, Tracks, N.Next;
    if a.Did? && (a.event.Read? || a.event.Crash?) {
      Looks(w, h, a, logs, s);
      return trace, steps;
    }
    if a.Did? {
      if a.event.Received? { step, t := Takes(w, h, a, logs, s); }
      else if a.event.Reply? { step, t := Replies(w, h, a, logs, s); }
      else { step, t := Announces(w, h, a, logs, s); }
    } else if a.Heard? {
      step, t := Hears(w, h, a, logs, s);
    } else {
      step, t := Speaks(w, h, a, logs, s);
    }
    trace', steps' := trace + [t], steps + [step];
    Longer(w, trace, steps, step, t);
  }

  lemma Longer(w: N.World, trace: seq<N.Net>, steps: seq<N.Step>, step: N.Step, t: N.Net)
    requires N.Run(w, trace, steps) && N.Next(w, trace[|trace| - 1], step, t)
    ensures N.Run(w, trace + [t], steps + [step])
  {
    hide N.Next;
    var trace', steps' := trace + [t], steps + [step];
    forall i: nat | i < |steps'| ensures N.Next(w, trace'[i], steps'[i], trace'[i + 1]) {
      if i < |steps| { assert N.Next(w, trace[i], steps[i], trace[i + 1]); }
    }
  }

  /** Every interleaving of the loops is a run of the network. */
  lemma {:induction false} InterleavingIsRun(w: N.World, h: seq<Act>, logs: seq<seq<Event>>)
    returns (trace: seq<N.Net>, steps: seq<N.Step>)
    requires Interleaves(w, h, logs)
    ensures N.Run(w, trace, steps) && Tracks(w, h, logs, trace[|trace| - 1])
  {
    if h == [] {
      trace, steps := [N.Net({}, multiset{}, [], 0, 0)], [];
    } else {
      var front, a := h[..|h| - 1], h[|h| - 1];
      assert h == front + [a];
      Before(w, front, a, logs);
      hide Interleaves, Tracks, N.Run;
      trace, steps := InterleavingIsRun(w, front, logs);
      trace, steps := OneAct(w, front, a, logs, trace, steps);
    }
  }

  // ---- the client's loop ----

  /** The datagrams received in the loop's turns. */
  function GotIn(c: Call, ticks: seq<Tick>): seq<Bytes> {
    if ticks == [] || ticks[0].now >= c.Deadline() then []
    else (if ticks[0].wake.Got? then [ticks[0].wake.datagram] else []) + GotIn(c, ticks[1..])
  }

  lemma {:induction false} LoopFound(w: N.World, s: State, before: seq<Bytes>, ticks: seq<Tick>)
    requires s.found == FoundOf(w, before)
    ensures Loop(w.c, s, ticks, w.lib).found == FoundOf(w, before + GotIn(w.c, ticks))
    decreases |ticks|
  {
    hide Accepted, SetItem, FoundOf;
    if ticks == [] || ticks[0].now >= w.c.Deadline() {
      assert before + [] == before;
    } else {
      var more := if ticks[0].wake.Got? then [ticks[0].wake.datagram] else [];
      if more != [] { OneFound(w, before, more[0]); } else { assert before + [] == before; }
      LoopFound(w, Turn(w.c, s, ticks[0], w.lib), before + more, ticks[1..]);
      Assoc(before, more, GotIn(w.c, ticks[1..]));
    }
  }

  lemma {:induction false} GotAt(c: Call, ticks: seq<Tick>, k: nat)
    requires k < Turns(c, ticks) && ticks[k].wake.Got?
    ensures ticks[k].wake.datagram in GotIn(c, ticks)
  {
    if k > 0 { GotAt(c, ticks[1..], k - 1); }
  }

  lemma {:induction false} HeardIs(h: seq<Act>, data: Bytes) returns (i: nat)
    requires data in HeardBy(h)
    ensures i < |h| && h[i].Heard? && h[i].data == data
  {
    var n := |h| - 1;
    if h[n].Heard? && h[n].data == data { return n; }
    i := HeardIs(h[..n], data);
  }

  /** All the client's loop received was carried by the network. */
  lemma AllCarried(w: N.World, h: seq<Act>, logs: seq<seq<Event>>, ticks: seq<Tick>, s: N.Net)
    requires Interleaves(w, h, logs) && Tracks(w, h, logs, s) && HeardBy(h) == GotIn(w.c, ticks)
    ensures FromNetwork(w.c, ticks, s.sent)
  {
    hide AllPend, FoundOf, LoopLog;
    forall k: nat | k < Turns(w.c, ticks) && ticks[k].wake.Got? ensures Carried(ticks[k].wake.datagram, s.sent) {
      GotAt(w.c, ticks, k);
      var i := HeardIs(h, ticks[k].wake.datagram);
      var a :| a in h[..i] && Sent(w, a) == Got(h[i]);
      assert a in h;
      var p := Find(w, h, s.sent, h[i].from, h[i].data);
    }
  }

  // ---- main result ----

  /** The loops of any mix of responders and the loop of one `discover`, interleaved in any way on
      a network that loses, repeats and reorders: every record in the list returned was sent in
      the interleaving by a responder, passes the client's filter, and either answers this query,
      echoing its id, or carries no id. */
  lemma ListIsSafe(w: N.World, h: seq<Act>, logs: seq<seq<Event>>, ticks: seq<Tick>, m: Dict)
    returns (trace: seq<N.Net>, steps: seq<N.Step>, packet: N.Packet)
    requires N.WorldOk(w) && Interleaves(w, h, logs) && HeardBy(h) == GotIn(w.c, ticks)
    requires m in Sorted(Values(Loop(w.c, Start(w.c), ticks, w.lib).found))
    ensures N.Run(w, trace, steps)
    ensures var end := trace[|trace| - 1];
      && end.found == Loop(w.c, Start(w.c), ticks, w.lib).found
      && Safe(w, end.sent, Entry(IdOf(m), PDict(m)), packet)
    ensures exists a <- h :: Sent(w, a) == Some((packet.from, packet.data))
  {
    hide N.WorldOk, N.Run, Safe, Interleaves, Sorted, Values, Loop, IdOf;
    trace, steps := InterleavingIsRun(w, h, logs);
    var end := trace[|trace| - 1] by { Ending(w, trace, steps); }
    LoopFound(w, Start(w.c), [], ticks);
    assert [] + GotIn(w.c, ticks) == GotIn(w.c, ticks);
    AllCarried(w, h, logs, ticks, end);
    var records := Sorted(Values(Loop(w.c, Start(w.c), ticks, w.lib).found));
    packet := ReturnedSafely(w, trace, steps, |trace| - 1, ticks, records, m);
    SafeSent(w, end.sent, Entry(IdOf(m), PDict(m)), packet);
  }

  lemma Ending(w: N.World, trace: seq<N.Net>, steps: seq<N.Step>)
    requires N.Run(w, trace, steps)
    ensures trace != []
  {
  }

  lemma SafeSent(w: N.World, sent: set<N.Packet>, e: Entry, packet: N.Packet)
    requires Safe(w, sent, e, packet)
    ensures packet in sent
  {
  }
}
