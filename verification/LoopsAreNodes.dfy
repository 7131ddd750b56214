/** The two loops behave as the nodes of `Network`: everything they send is a node's reply to the
    query just received, sent to its source, or a node's announce. */
module LoopsAreNodes {
  import opened Bytes
  import opened ResponderLog
  import opened Protocol
  import opened CppMessages
  import N = Network
  import P = PyLoop
  import PP = PyLoopProofs
  import C = CppLoop
  import CP = CppLoopProofs

  ghost predicate NodeSends(n: N.Node, log: seq<Event>, i: nat)
    requires i < |log|
  {
    match log[i]
    case Reply(_, to, data) =>
      && i >= 2 && log[i - 2].Received? && log[i - 2].from == to && log[i - 1] == Read(false)
      && N.Answers(n, log[i - 2].data, data)
    case Beacon(_, data) => N.Announces(n, data)
    case _ => true
  }

  lemma PyTurnBeacon(cfg: P.Config, next: Option<real>, t: P.Step, i: nat)
    requires i < |P.Turn(cfg, next, t)| && P.Turn(cfg, next, t)[i].Beacon?
    ensures N.Announces(N.Py(cfg), P.Turn(cfg, next, t)[i].data)
  {
    hide P.Announce, Encoded, PyAnswer;
    var top := P.Top(cfg, next, t);
    if 0 < i <= |top| {
      assert P.Turn(cfg, next, t)[i] == top[i - 1];
      assert Encoded(P.Announce(cfg, None, t.beaconAs)) == Some(top[0].data);
    }
  }

  lemma {:induction false} PyBeacons(cfg: P.Config, next: Option<real>, steps: seq<P.Step>, i: nat)
    requires i < |P.Log(cfg, next, steps)| && P.Log(cfg, next, steps)[i].Beacon?
    ensures N.Announces(N.Py(cfg), P.Log(cfg, next, steps)[i].data)
    decreases |steps|
  {
    hide P.Turn, P.NextAnnounce, N.Announces;
    var turn := P.Turn(cfg, next, steps[0]);
    if i < |turn| {
      PyTurnBeacon(cfg, next, steps[0], i);
    } else {
      PyBeacons(cfg, P.NextAnnounce(cfg, next, steps[0]), steps[1..], i - |turn|);
    }
  }

  /** Whatever the Python loop sends, at any point of any run. */
  lemma PyLoopIsNode(cfg: P.Config, next: Option<real>, steps: seq<P.Step>, i: nat)
    requires i < |P.Log(cfg, next, steps)|
    ensures NodeSends(N.Py(cfg), P.Log(cfg, next, steps), i)
  {
    hide P.Log, PP.ReplyTo;
    var log := P.Log(cfg, next, steps);
    if log[i].Reply? { PP.RepliesAreGood(cfg, next, steps, i); }
    if log[i].Beacon? { PyBeacons(cfg, next, steps, i); }
  }

  lemma {:induction false} CppBeacons(cfg: C.Config, next: real, steps: seq<C.Step>, i: nat)
    requires i < |C.Log(cfg, next, steps)| && C.Log(cfg, next, steps)[i].Beacon?
    ensures C.Log(cfg, next, steps)[i].data == AnnounceText(cfg.me, None, cfg.show)
    decreases |steps|
  {
    hide AnnounceText, CppAnswer;
    var turn := C.Turn(cfg, next, steps[0]);
    if i >= |turn| { CppBeacons(cfg, C.NextAnnounce(cfg, next, steps[0]), steps[1..], i - |turn|); }
  }

  /** Whatever the C++ loop sends, at any point of any run. */
  lemma CppLoopIsNode(cfg: C.Config, next: real, steps: seq<C.Step>, i: nat)
    requires i < |C.Log(cfg, next, steps)|
    ensures NodeSends(N.Cpp(cfg), C.Log(cfg, next, steps), i)
  {
    hide C.Log, AnnounceText, CppAnswer;
    var log := C.Log(cfg, next, steps);
    if log[i].Reply? { CP.RepliesAreGood(cfg, next, steps, i); }
    if log[i].Beacon? { CppBeacons(cfg, next, steps, i); }
  }
}
