/** The C++ responder over whole runs: stopping, beacons, replies. */
module CppLoopProofs {
  import opened Bytes
  import opened CppJson
  import opened CppMessages
  import opened Protocol
  import opened ResponderLog
  import opened CppLoop

  // ---- stopping ----

  lemma TurnPolls(c: Config, next: real, t: Step, rest: seq<Event>, used: nat)
    requires used <= 2 && Polls(rest, 2, 0) && Polls(rest, 2, 1) && Polls(rest, 2, 2) && (LastTurn(t) ==> rest == [])
    ensures Polls(Turn(c, next, t) + rest, 2, used)
  {
    hide CppAnswer, AnnounceText, Polls, Bottom, Answered, Arrived;
    if t.stopTop {
      PollsCons(Read(true), [], 2, used);
      assert [Read(true)] + rest == [Read(true)] + [];
    } else {
      var mid := if t.stopMid then [Read(true)] else [Read(false)] + Answered(c, t) + Bottom(c, next, t);
      MiddlePolls(c, next, t, rest);
      ArrivedPolls(t, mid + rest);
      PollsCons(Read(false), Arrived(t) + (mid + rest), 2, used);
      assert Turn(c, next, t) + rest == [Read(false)] + (Arrived(t) + (mid + rest));
    }
  }

  lemma ArrivedPolls(t: Step, tail: seq<Event>)
    requires Polls(tail, 2, 0)
    ensures Polls(Arrived(t) + tail, 2, 0)
  {
    if t.inbound.Nothing? {
      assert [] + tail == tail;
    } else {
      hide Polls;
      PollsCons(Arrived(t)[0], tail, 2, 0);
      assert Arrived(t) == [Arrived(t)[0]];
    }
  }

  lemma MiddlePolls(c: Config, next: real, t: Step, rest: seq<Event>)
    requires Polls(rest, 2, 0) && Polls(rest, 2, 1) && Polls(rest, 2, 2) && (t.stopMid ==> rest == [])
    ensures var mid := if t.stopMid then [Read(true)] else [Read(false)] + Answered(c, t) + Bottom(c, next, t);
            Polls(mid + rest, 2, 0)
  {
    hide CppAnswer, AnnounceText, Polls;
    if t.stopMid {
      PollsCons(Read(true), [], 2, 0);
      assert [Read(true)] + rest == [Read(true)] + [];
    } else {
      var a, b := Answered(c, t), Bottom(c, next, t);
      OneSend(b, rest, 0);
      OneSend(b, rest, 1);
      OneSend(a, b + rest, 0);
      PollsCons(Read(false), a + (b + rest), 2, 0);
      assert [Read(false)] + a + b + rest == [Read(false)] + (a + (b + rest));
    }
  }

  lemma OneSend(a: seq<Event>, tail: seq<Event>, used: nat)
    requires |a| <= 1 && (a != [] ==> IsSend(a[0])) && used < 2
    requires Polls(tail, 2, used) && Polls(tail, 2, used + 1)
    ensures Polls(a + tail, 2, used)
  {
    hide Polls;
    if a == [] {
      assert a + tail == tail;
    } else {
      assert a == [a[0]];
      PollsCons(a[0], tail, 2, used);
    }
  }

  lemma {:induction false} LogPolls(c: Config, next: real, steps: seq<Step>, used: nat)
    requires used <= 2
    ensures Polls(Log(c, next, steps), 2, used)
    decreases |steps|
  {
    hide Turn;
    if steps != [] {
      if LastTurn(steps[0]) {
        assert Turn(c, next, steps[0]) + [] == Turn(c, next, steps[0]);
        TurnPolls(c, next, steps[0], [], used);
      } else {
        var next' := NextAnnounce(c, next, steps[0]);
        LogPolls(c, next', steps[1..], 0);
        LogPolls(c, next', steps[1..], 1);
        LogPolls(c, next', steps[1..], 2);
        TurnPolls(c, next, steps[0], Log(c, next', steps[1..]), used);
      }
    }
  }

  /** However the flag is set, at most two more datagrams leave: one reply and one beacon. */
  lemma AtMostTwoAfterStop(c: Config, start: real, steps: seq<Step>, p: nat)
    requires SetAt(Log(c, start, steps), p)
    ensures SentFrom(Log(c, start, steps), p) <= 2
  {
    LogPolls(c, start, steps, 0);
    FewSendsAfter(Log(c, start, steps), 2, 0, p);
  }

  /** And two it can be: the flag set just after the second look of a turn with a query. */
  lemma TwoAfterStop(c: Config, start: real, from: Address, query: Bytes)
    requires c.interval > 0 && c.canSend && CppAnswer(query, c.me.opt, c.stod, c.glob).Reply?
    ensures var steps := [Step(false, Datagram(from, query), false, start, start),
                          Step(true, Nothing, true, start, start)];
      SetAt(Log(c, start, steps), 3) && SentFrom(Log(c, start, steps), 3) == 2
  {
    var t, u := Step(false, Datagram(from, query), false, start, start), Step(true, Nothing, true, start, start);
    var steps := [t, u];
    hide AnnounceText, CppAnswer;
    assert steps[1..] == [u];
    var log := Log(c, start, steps);
    assert |Turn(c, start, t)| == 5 && Log(c, NextAnnounce(c, start, t), [u]) == [Read(true)];
    assert |log| == 6 && log[0] == Read(false) && log[1].Received? && log[2] == Read(false) && log[3].Reply?
        && log[4].Beacon? && log[5] == Read(true);
    assert log[1..][1..][1..] == [log[3], log[4], log[5]];
    assert [log[3], log[4], log[5]][1..] == [log[4], log[5]] && [log[4], log[5]][1..] == [log[5]]
           && [log[5]][1..] == [];
    assert SentFrom([], 0) == 0 && SentFrom([log[5]], 0) == 0;
    assert SentFrom([log[4], log[5]], 0) == 1 && SentFrom([log[3], log[4], log[5]], 0) == 2;
    assert SentFrom(log[1..][1..], 1) == 2 && SentFrom(log[1..], 2) == 2;
  }

  // ---- beacons ----

  /** Local work takes no time: from one look at the beacon's clock to the next pass a receive,
      at most 0.5 s, and the jitter of a reply, at most 0.25 s. */
  predicate Prompt(steps: seq<Step>, clock: real) {
    steps == [] ||
    (&& clock <= steps[0].now <= clock + 0.5 + (if steps[0].inbound.Datagram? then 0.25 else 0.0)
     && Prompt(steps[1..], steps[0].now))
  }

  lemma TurnBeacons(c: Config, next: real, t: Step)
    ensures Beacons(Turn(c, next, t)) == if !LastTurn(t) && BeaconDue(c, next, t) then [t.now] else []
  {
    hide CppAnswer, AnnounceText, Beacons, IsCppDiscover;
    var r, f, discover := Read(false), Read(true), _ => false;
    OneEvent(r, discover);
    OneEvent(f, discover);
    NoEvents(discover);
    Singles(Arrived(t), discover);
    Singles(Answered(c, t), discover);
    Singles(Bottom(c, next, t), discover);
    var mid := if t.stopMid then [f] else [r] + Answered(c, t) + Bottom(c, next, t);
    BeaconsConcat([r] + Answered(c, t), Bottom(c, next, t));
    BeaconsConcat([r], Answered(c, t));
    BeaconsConcat([r] + Arrived(t), mid);
    BeaconsConcat([r], Arrived(t));
  }

  lemma NoEvents(discover: Bytes -> bool)
    ensures Beacons([]) == [] && Replies([]) == 0 && Deliveries([], discover) == 0
  {
  }

  lemma Singles(a: seq<Event>, discover: Bytes -> bool)
    requires |a| <= 1
    ensures Beacons(a) == if a != [] && a[0].Beacon? then [a[0].at] else []
    ensures Replies(a) == if a != [] && a[0].Reply? then 1 else 0
    ensures Deliveries(a, discover) == if a != [] && a[0].Received? && discover(a[0].data) then 1 else 0
  {
    if a != [] {
      OneEvent(a[0], discover);
      assert a == [a[0]];
    }
  }

  lemma {:induction false} BeaconsRegular(c: Config, due: real, steps: seq<Step>, clock: real)
    requires c.interval > 0 && Prompt(steps, clock) && clock <= due
    ensures Regular(Beacons(Log(c, due, steps)), due, c.interval as real)
    decreases |steps|
  {
    if steps != [] {
      var t := steps[0];
      hide Turn;
      TurnBeacons(c, due, t);
      assert [t.now][1..] == [];
      if !LastTurn(t) && c.canSend {
        var due' := NextAnnounce(c, due, t);
        var later := Beacons(Log(c, due', steps[1..]));
        BeaconsConcat(Turn(c, due, t), Log(c, due', steps[1..]));
        BeaconsRegular(c, due', steps[1..], t.now);
        TailOfCons(t.now, later);
        assert [] + later == later;
      } else if !LastTurn(t) {
        NeverBeacons(c, due, steps);
      }
    }
  }

  /** Without a sending socket, or with an interval of zero or less, there is no beacon at all. */
  lemma {:induction false} NeverBeacons(c: Config, due: real, steps: seq<Step>)
    requires !c.canSend || c.interval <= 0
    ensures Beacons(Log(c, due, steps)) == []
    decreases |steps|
  {
    hide Turn;
    if steps != [] {
      TurnBeacons(c, due, steps[0]);
      if !LastTurn(steps[0]) {
        NeverBeacons(c, due, steps[1..]);
        BeaconsConcat(Turn(c, due, steps[0]), Log(c, due, steps[1..]));
      }
    }
  }

  /** The C++ responder announces itself at once, within 0.75 s of its start, and from then on
      at the pace the Python one keeps. */
  lemma BeaconTiming(c: Config, start: real, steps: seq<Step>)
    requires c.interval > 0 && Prompt(steps, start)
    ensures var times, every := Beacons(Log(c, start, steps)), c.interval as real;
      && Regular(times, start, every)
      && (times != [] ==> start <= times[0] <= start + 0.75)
      && Paced(times, every)
  {
    var times, every := Beacons(Log(c, start, steps)), c.interval as real;
    hide Log, Turn, Prompt, Beacons, Paced, Regular;
    BeaconsRegular(c, start, steps, start);
    RegularPaced(times, start, every);
  }

  /** One turn that goes on, before a rest that keeps up. */
  lemma TurnKeepsUp(c: Config, due: real, t: Step, rest: seq<Event>, clock: real)
    requires !LastTurn(t) && KeptUp(Beacons(rest), NextAnnounce(c, due, t), c.interval as real, clock)
    ensures KeptUp(Beacons(Turn(c, due, t) + rest), due, c.interval as real, clock)
  {
    hide Turn, LastTurn, KeptUp, Beacons;
    TurnBeacons(c, due, t);
    BeaconsConcat(Turn(c, due, t), rest);
    KeptUpTurn(BeaconDue(c, due, t), t.now, Beacons(rest), due, c.interval as real, clock);
  }

  /** A turn that goes on leaves the next beacon due later than its own look at the clock. */
  lemma TurnUpToDate(c: Config, due: real, t: Step)
    requires c.interval > 0 && c.canSend
    ensures KeptUp(Beacons([]), NextAnnounce(c, due, t), c.interval as real, t.now)
  {
  }

  lemma {:induction false} BeaconsKeepUp(c: Config, due: real, steps: seq<Step>)
    requires c.interval > 0 && c.canSend && steps != [] && forall t <- steps :: !LastTurn(t)
    ensures KeptUp(Beacons(Log(c, due, steps)), due, c.interval as real, steps[|steps| - 1].now)
    decreases |steps|
  {
    hide Turn, LastTurn, KeptUp, Beacons;
    var t := steps[0];
    var due' := NextAnnounce(c, due, t);
    var rest := Log(c, due', steps[1..]);
    assert t in steps;
    if |steps| > 1 {
      assert forall u <- steps[1..] :: u in steps;
      BeaconsKeepUp(c, due', steps[1..]);
    } else {
      TurnUpToDate(c, due, t);
      assert rest == [];
    }
    TurnKeepsUp(c, due, t, rest, steps[|steps| - 1].now);
  }

  /** Beacons do go out, if the sending socket opened: whenever the loop of an unfinished run
      looks at the clock, none is outstanding. */
  lemma BeaconsGoOut(c: Config, start: real, steps: seq<Step>)
    requires c.interval > 0 && c.canSend && Prompt(steps, start) && steps != []
    requires forall t <- steps :: !LastTurn(t)
    ensures var times, clock := Beacons(Log(c, start, steps)), steps[|steps| - 1].now;
      && KeptUp(times, start, c.interval as real, clock)
      && clock < start + (|times| as real) * (c.interval as real + 0.75)
  {
    hide Log, Turn, LastTurn, Prompt, Beacons, KeptUp, Regular;
    BeaconsKeepUp(c, start, steps);
    BeaconsRegular(c, start, steps, start);
    EnoughBeacons(Beacons(Log(c, start, steps)), start, c.interval as real, steps[|steps| - 1].now);
  }

  // ---- replies ----

  /** C++ reads this datagram as a DISCOVER. */
  predicate IsCppDiscover(data: Bytes, stod: Stod) {
    match Parse(data[..Min(|data|, MAX_DATAGRAM)], stod)
    case Failure(_) => false
    case Success(msg) =>
      match Lookup(msg, K_TYPE)
      case Some(kind) => AsString(kind) == DISCOVER
      case None => false
  }

  function Discovers(c: Config): Bytes -> bool { (data: Bytes) => IsCppDiscover(data, c.stod) }

  lemma OnlyDiscoverAnswered(c: Config, data: Bytes)
    requires CppAnswer(data, c.me.opt, c.stod, c.glob).Reply?
    ensures Discovers(c)(data)
  {
    hide CppMatches, L;
  }

  lemma TurnCounts(c: Config, next: real, t: Step)
    ensures Replies(Turn(c, next, t)) <= Deliveries(Turn(c, next, t), Discovers(c))
  {
    if Answered(c, t) != [] { OnlyDiscoverAnswered(c, t.inbound.data); }
    var discover := Discovers(c);
    hide CppAnswer, AnnounceText, Discovers, IsCppDiscover, Replies, Deliveries;
    var r, f := Read(false), Read(true);
    OneEvent(r, discover);
    OneEvent(f, discover);
    Singles(Arrived(t), discover);
    Singles(Answered(c, t), discover);
    Singles(Bottom(c, next, t), discover);
    var mid := if t.stopMid then [f] else [r] + Answered(c, t) + Bottom(c, next, t);
    CountsConcat([r] + Answered(c, t), Bottom(c, next, t), discover);
    CountsConcat([r], Answered(c, t), discover);
    CountsConcat([r] + Arrived(t), mid, discover);
    CountsConcat([r], Arrived(t), discover);
  }

  /** Replies never outnumber the DISCOVERs delivered. */
  lemma {:induction false} NoMoreRepliesThanQueries(c: Config, next: real, steps: seq<Step>)
    ensures Replies(Log(c, next, steps)) <= Deliveries(Log(c, next, steps), Discovers(c))
    decreases |steps|
  {
    hide Turn, Discovers, NextAnnounce;
    if steps != [] {
      var turn, rest := Turn(c, next, steps[0]), Log(c, NextAnnounce(c, next, steps[0]), steps[1..]);
      TurnCounts(c, next, steps[0]);
      if !LastTurn(steps[0]) {
        NoMoreRepliesThanQueries(c, NextAnnounce(c, next, steps[0]), steps[1..]);
        CountsConcat(turn, rest, Discovers(c));
      }
    }
  }

  /** Every reply goes to the source of the query received just before it and echoes its id. */
  predicate GoodReply(c: Config, log: seq<Event>, i: nat)
    requires i < |log| && log[i].Reply?
  {
    && i >= 2 && log[i - 2].Received? && log[i - 2].from == log[i].to && log[i - 1] == Read(false)
    && var answer := CppAnswer(log[i - 2].data, c.me.opt, c.stod, c.glob);
       answer.Reply? && log[i].data == AnnounceText(c.me, answer.qid, c.show)
  }

  lemma TurnReplies(c: Config, next: real, t: Step, i: nat)
    requires i < |Turn(c, next, t)| && Turn(c, next, t)[i].Reply?
    ensures GoodReply(c, Turn(c, next, t), i)
  {
    hide AnnounceText, CppAnswer;
    var turn := Turn(c, next, t);
    assert i == 3 && turn[1] == Received(t.inbound.from, t.inbound.data) && turn[2] == Read(false);
  }

  lemma {:induction false} RepliesAreGood(c: Config, next: real, steps: seq<Step>, i: nat)
    requires i < |Log(c, next, steps)| && Log(c, next, steps)[i].Reply?
    ensures GoodReply(c, Log(c, next, steps), i)
    decreases |steps|
  {
    hide Turn, NextAnnounce, AnnounceText, CppAnswer;
    var turn := Turn(c, next, steps[0]);
    if i < |turn| {
      TurnReplies(c, next, steps[0], i);
    } else {
      RepliesAreGood(c, NextAnnounce(c, next, steps[0]), steps[1..], i - |turn|);
    }
  }

  /** After a datagram received at `i` with the flag seen clear at `i + 1` there is a reply iff the
      sending socket opened and the datagram is to be answered; the reply goes to its source and
      echoes its id. */
  predicate AnsweredAt(c: Config, log: seq<Event>, i: nat)
    requires i < |log| && log[i].Received?
  {
    match CppAnswer(log[i].data, c.me.opt, c.stod, c.glob)
    case Reply(qid) =>
      if c.canSend
      then i + 2 < |log| && log[i + 2].Reply? && log[i + 2].to == log[i].from
           && log[i + 2].data == AnnounceText(c.me, qid, c.show)
      else i + 2 < |log| ==> !log[i + 2].Reply?
    case Silent => i + 2 < |log| ==> !log[i + 2].Reply?
  }

  predicate AllAnswered(c: Config, log: seq<Event>) {
    forall i: nat | i + 1 < |log| && log[i].Received? && log[i + 1] == Read(false) :: AnsweredAt(c, log, i)
  }

  lemma TurnAnswers(c: Config, next: real, t: Step)
    ensures AllAnswered(c, Turn(c, next, t))
    ensures forall i | 0 <= i < |Turn(c, next, t)| && Turn(c, next, t)[i].Received? :: i + 1 < |Turn(c, next, t)|
    ensures Turn(c, next, t) != [] && Turn(c, next, t)[0].Read?
  {
    hide AnnounceText, CppAnswer;
    var turn := Turn(c, next, t);
    forall i: nat | i < |turn| && turn[i].Received? ensures i == 1 {}
  }

  /** What a turn leaves open a later turn does not close: it starts with a look at the flag. */
  lemma AnswersJoin(c: Config, a: seq<Event>, b: seq<Event>)
    requires AllAnswered(c, a) && AllAnswered(c, b) && (b != [] ==> b[0].Read?)
    requires forall i | 0 <= i < |a| && a[i].Received? :: i + 1 < |a|
    ensures AllAnswered(c, a + b)
  {
    hide AnnounceText, CppAnswer;
    var log := a + b;
    forall i: nat | i + 1 < |log| && log[i].Received? && log[i + 1] == Read(false) ensures AnsweredAt(c, log, i) {
      if i < |a| { assert AnsweredAt(c, a, i); } else { assert AnsweredAt(c, b, i - |a|); }
    }
  }

  /** Every query that is to be answered is answered, and no other, in every run and whatever
      the interval between beacons. */
  lemma {:induction false} QueriesAreAnswered(c: Config, next: real, steps: seq<Step>)
    ensures AllAnswered(c, Log(c, next, steps))
    ensures Log(c, next, steps) != [] ==> Log(c, next, steps)[0].Read?
    decreases |steps|
  {
    hide Turn, NextAnnounce, AllAnswered;
    if steps == [] {
      NoneToAnswer(c);
    } else {
      TurnAnswers(c, next, steps[0]);
      if !LastTurn(steps[0]) {
        QueriesAreAnswered(c, NextAnnounce(c, next, steps[0]), steps[1..]);
        AnswersJoin(c, Turn(c, next, steps[0]), Log(c, NextAnnounce(c, next, steps[0]), steps[1..]));
      }
    }
  }

  lemma NoneToAnswer(c: Config)
    ensures AllAnswered(c, [])
  {
  }

  /** And every datagram that arrives while the flag reads clear is received. */
  lemma {:induction false} AllReceived(c: Config, next: real, steps: seq<Step>, k: nat)
    requires k < |steps| && forall j | 0 <= j < k :: !LastTurn(steps[j])
    requires !steps[k].stopTop && steps[k].inbound.Datagram?
    ensures Received(steps[k].inbound.from, steps[k].inbound.data) in Log(c, next, steps)
    decreases k
  {
    hide CppAnswer, AnnounceText;
    if k == 0 {
      assert Turn(c, next, steps[0])[1] in Turn(c, next, steps[0]);
    } else {
      AllReceived(c, NextAnnounce(c, next, steps[0]), steps[1..], k - 1);
    }
  }
}
