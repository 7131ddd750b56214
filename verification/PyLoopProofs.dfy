/** The Python responder over whole runs: stopping, beacons, replies, survival. */
module PyLoopProofs {
  import opened Bytes
  import opened PyJson
  import opened Protocol
  import opened ProtocolProofs
  import opened MessageSize
  import opened ResponderLog
  import opened PyLoop
  import opened Utf8

  // ---- stopping ----

  lemma PollsRead(e: Event, log: seq<Event>, limit: nat, used: nat)
    requires e == Read(false) && Polls(log, limit, 0)
    ensures Polls([e] + log, limit, used)
  {
    PollsCons(e, log, limit, used);
  }

  /** What follows a `recvfrom`, then anything that starts by reading the flag. */
  lemma BodyPolls(c: Config, t: Step, rest: seq<Event>, used: nat)
    requires Polls(rest, 1, 0) && Polls(rest, 1, 1) && used <= 1 && (Ends(Body(c, t)) ==> rest == [])
    ensures Polls(Body(c, t) + rest, 1, used)
  {
    hide Announce, Encoded, PyAnswer, Polls;
    if t.inbound.Nothing? {
      assert [] + rest == rest;
    } else {
      var a := if t.stopMid then [] else Answered(c, t.inbound.from, t.inbound.data, t);
      assert Polls(a + rest, 1, 0) && (t.stopMid ==> a + rest == []) by {
        if a == [] {
          assert a + rest == rest;
        } else {
          assert a == [a[0]];
          PollsCons(a[0], rest, 1, 0);
        }
      }
      var r, f := Received(t.inbound.from, t.inbound.data), Read(t.stopMid);
      PollsCons(f, a + rest, 1, used);
      PollsCons(r, [f] + (a + rest), 1, used);
      assert Body(c, t) + rest == [r] + ([f] + (a + rest));
    }
  }

  lemma LastReads()
    ensures Ends([Read(true)]) && !Ends([Read(false)])
  {
  }

  lemma Regroup<T>(a: seq<T>, b: seq<T>, d: seq<T>, e: seq<T>)
    ensures a + b + d + e == a + (b + (d + e)) && a + b + e == a + (b + e)
  {
  }

  lemma TopPolls(c: Config, next: Option<real>, t: Step, tail: seq<Event>)
    requires Polls(tail, 1, 0) && Polls(tail, 1, 1) && (Ends(Top(c, next, t)) ==> tail == [])
    ensures Polls(Top(c, next, t) + tail, 1, 0)
  {
    hide Announce, Encoded, Polls;
    var top := Top(c, next, t);
    if top == [] {
      assert top + tail == tail;
    } else {
      assert top == [top[0]];
      PollsCons(top[0], tail, 1, 0);
    }
  }

  lemma TurnPolls(c: Config, next: Option<real>, t: Step, rest: seq<Event>, used: nat)
    requires Polls(rest, 1, 0) && Polls(rest, 1, 1) && used <= 1 && (Ends(Turn(c, next, t)) ==> rest == [])
    ensures Polls(Turn(c, next, t) + rest, 1, used)
  {
    hide Announce, Encoded, Polls, Body, Top, Ends;
    var top, body := Top(c, next, t), Body(c, t);
    if t.stopTop {
      assert Turn(c, next, t) == [Read(true)];
      LastReads();
      PollsCons(Read(true), [], 1, used);
      assert [Read(true)] + rest == [Read(true)] + [];
    } else {
      EndsConcat([Read(false)], top);
      EndsConcat([Read(false)] + top, body);
      LastReads();
      var tail := if Ends(top) then rest else body + rest;
      if !Ends(top) {
        BodyPolls(c, t, rest, 0);
        BodyPolls(c, t, rest, 1);
      }
      TopPolls(c, next, t, tail);
      PollsRead(Read(false), top + tail, 1, used);
      Regroup([Read(false)], top, body, rest);
    }
  }

  lemma {:induction false} LogPolls(c: Config, next: Option<real>, steps: seq<Step>, used: nat)
    requires used <= 1
    ensures Polls(Log(c, next, steps), 1, used)
    decreases |steps|
  {
    hide Turn;
    if steps != [] {
      var turn := Turn(c, next, steps[0]);
      if Ends(turn) {
        assert turn + [] == turn;
        TurnPolls(c, next, steps[0], [], used);
      } else {
        var next' := NextAnnounce(c, next, steps[0]);
        LogPolls(c, next', steps[1..], 0);
        LogPolls(c, next', steps[1..], 1);
        TurnPolls(c, next, steps[0], Log(c, next', steps[1..]), used);
      }
    }
  }

  /** However the flag is set, at most one more datagram leaves. */
  lemma AtMostOneAfterStop(c: Config, start: real, steps: seq<Step>, p: nat)
    requires SetAt(Log(c, FirstAnnounce(c, start), steps), p)
    ensures SentFrom(Log(c, FirstAnnounce(c, start), steps), p) <= 1
  {
    LogPolls(c, FirstAnnounce(c, start), steps, 0);
    FewSendsAfter(Log(c, FirstAnnounce(c, start), steps), 1, 0, p);
  }

  // ---- beacons ----

  /** Local work takes no time: a turn lasts as long as its receive, at most 0.5 s, and the
      jitter of its reply, at most 0.25 s. */
  predicate Prompt(steps: seq<Step>, clock: real) {
    steps == [] ||
    (&& steps[0].now == clock == steps[0].after
     && (|steps| > 1 ==> clock <= steps[1].now <= clock + 0.5 + (if steps[0].inbound.Datagram? then 0.25 else 0.0)
                         && Prompt(steps[1..], steps[1].now)))
  }

  lemma BodyHasNoBeacon(c: Config, t: Step)
    ensures Beacons(Body(c, t)) == []
  {
    hide Announce, Encoded, PyAnswer, Beacons, IsDiscover;
    if t.inbound.Datagram? {
      var r, f := Received(t.inbound.from, t.inbound.data), Read(t.stopMid);
      var a := if t.stopMid then [] else Answered(c, t.inbound.from, t.inbound.data, t);
      OneEvent(r, IsDiscover);
      OneEvent(f, IsDiscover);
      TwoEvents(r, f, IsDiscover);
      assert Body(c, t) == [r, f] + a;
      BeaconsConcat([r, f], a);
      if a == [] { NoEvents(IsDiscover); } else { OneEvent(a[0], IsDiscover); assert a == [a[0]]; }
    } else {
      NoEvents(IsDiscover);
    }
  }

  lemma NoEvents(discover: Bytes -> bool)
    ensures Beacons([]) == [] && Replies([]) == 0 && Deliveries([], discover) == 0
  {
  }

  lemma TurnBeacons(c: Config, next: Option<real>, t: Step)
    ensures Beacons(Turn(c, next, t)) ==
            if !t.stopTop && BeaconDue(next, t.now) && Encoded(Announce(c, None, t.beaconAs)).Some? then [t.now] else []
    ensures !Ends(Turn(c, next, t)) ==>
              !t.stopTop && (BeaconDue(next, t.now) ==> Encoded(Announce(c, None, t.beaconAs)).Some?)
  {
    hide Announce, Encoded, Body, Beacons, IsDiscover;
    var top := Top(c, next, t);
    BodyHasNoBeacon(c, t);
    if top == [] { NoEvents(IsDiscover); } else { OneEvent(top[0], IsDiscover); assert top == [top[0]]; }
    OneEvent(Read(false), IsDiscover);
    OneEvent(Read(true), IsDiscover);
    BeaconsConcat([Read(false)], top);
    BeaconsConcat([Read(false)] + top, Body(c, t));
  }

  lemma {:induction false} BeaconsRegular(c: Config, due: real, steps: seq<Step>, clock: real)
    requires c.interval > 0.0 && Prompt(steps, clock) && clock <= due + 0.75
    ensures Regular(Beacons(Log(c, Some(due), steps)), due, c.interval)
    decreases |steps|
  {
    if steps != [] {
      var t := steps[0];
      var turn := Turn(c, Some(due), t);
      hide Turn, Announce, Encoded, L, Dumps;
      TurnBeacons(c, Some(due), t);
      if BeaconDue(Some(due), t.now) {
        RegularCons(t.now, [], due, c.interval);
        assert [t.now] + [] == [t.now];
      }
      if !Ends(turn) {
        var due' := NextAnnounce(c, Some(due), t).value;
        var later := Beacons(Log(c, Some(due'), steps[1..]));
        BeaconsConcat(turn, Log(c, Some(due'), steps[1..]));
        if |steps| > 1 {
          BeaconsRegular(c, due', steps[1..], steps[1].now);
        } else {
          assert Log(c, Some(due'), steps[1..]) == [];
        }
        if BeaconDue(Some(due), t.now) {
          RegularCons(t.now, later, due, c.interval);
        } else {
          assert [] + later == later;
        }
      }
    }
  }

  /** Beacons are an interval to an interval and 0.75 s apart, whatever queries arrive; the
      first comes no sooner than an interval after the start. */
  lemma BeaconTiming(c: Config, start: real, steps: seq<Step>)
    requires c.interval > 0.0 && Prompt(steps, start)
    ensures var times := Beacons(Log(c, FirstAnnounce(c, start), steps));
      && Regular(times, start + c.interval, c.interval)
      && (times != [] ==> start + c.interval <= times[0] <= start + c.interval + 0.75)
      && Paced(times, c.interval)
  {
    var times := Beacons(Log(c, FirstAnnounce(c, start), steps));
    hide Log, Turn, Prompt, Beacons, Paced, Regular;
    BeaconsRegular(c, start + c.interval, steps, start);
    RegularPaced(times, start + c.interval, c.interval);
  }

  /** One turn that goes on, before a rest that keeps up. */
  lemma TurnKeepsUp(c: Config, due: real, t: Step, rest: seq<Event>, clock: real)
    requires !Ends(Turn(c, Some(due), t)) && t.after == t.now
    requires KeptUp(Beacons(rest), NextAnnounce(c, Some(due), t).value, c.interval, clock)
    ensures KeptUp(Beacons(Turn(c, Some(due), t) + rest), due, c.interval, clock)
  {
    hide Turn, Announce, Encoded, L, Dumps, Ends, KeptUp, Beacons;
    TurnBeacons(c, Some(due), t);
    BeaconsConcat(Turn(c, Some(due), t), rest);
    KeptUpTurn(BeaconDue(Some(due), t.now), t.now, Beacons(rest), due, c.interval, clock);
  }

  /** A turn that goes on leaves the next beacon due later than its own look at the clock. */
  lemma TurnUpToDate(c: Config, due: real, t: Step)
    requires c.interval > 0.0 && t.after == t.now
    ensures KeptUp(Beacons([]), NextAnnounce(c, Some(due), t).value, c.interval, t.now)
  {
  }

  lemma {:induction false} BeaconsKeepUp(c: Config, due: real, steps: seq<Step>)
    requires c.interval > 0.0 && steps != [] && !Ends(Log(c, Some(due), steps))
    requires forall t <- steps :: t.after == t.now
    ensures KeptUp(Beacons(Log(c, Some(due), steps)), due, c.interval, steps[|steps| - 1].now)
    decreases |steps|
  {
    hide Turn, Announce, Encoded, L, Dumps, Ends, KeptUp, Beacons;
    var t := steps[0];
    var turn, due' := Turn(c, Some(due), t), NextAnnounce(c, Some(due), t).value;
    var rest := Log(c, Some(due'), steps[1..]);
    assert t in steps;
    NotEnded();
    EndsConcat(turn, rest);
    if |steps| > 1 {
      TurnNotEmpty(c, Some(due'), steps[1]);
      assert forall u <- steps[1..] :: u in steps;
      BeaconsKeepUp(c, due', steps[1..]);
    } else {
      TurnUpToDate(c, due, t);
      assert rest == [];
    }
    TurnKeepsUp(c, due, t, rest, steps[|steps| - 1].now);
  }

  lemma TurnNotEmpty(c: Config, next: Option<real>, t: Step)
    ensures Turn(c, next, t) != []
  {
    hide Top, Body;
  }

  lemma {:induction false} PromptInstant(steps: seq<Step>, clock: real)
    requires Prompt(steps, clock)
    ensures forall t <- steps :: t.after == t.now
  {
    if |steps| > 1 {
      PromptInstant(steps[1..], steps[1].now);
      assert forall t <- steps :: t == steps[0] || t in steps[1..];
    }
  }

  /** Beacons do go out: whenever the loop of an unfinished run looks at the clock, none is
      outstanding, so by then there is one for every interval and 0.75 s. */
  lemma BeaconsGoOut(c: Config, start: real, steps: seq<Step>)
    requires c.interval > 0.0 && Prompt(steps, start) && steps != []
    requires !Ends(Log(c, FirstAnnounce(c, start), steps))
    ensures var times, clock := Beacons(Log(c, FirstAnnounce(c, start), steps)), steps[|steps| - 1].now;
      && KeptUp(times, start + c.interval, c.interval, clock)
      && clock < start + c.interval + (|times| as real) * (c.interval + 0.75)
  {
    hide Log, Turn, Ends, Prompt, Beacons, KeptUp, Regular;
    PromptInstant(steps, start);
    BeaconsKeepUp(c, start + c.interval, steps);
    BeaconsRegular(c, start + c.interval, steps, start);
    EnoughBeacons(Beacons(Log(c, FirstAnnounce(c, start), steps)), start + c.interval, c.interval,
                  steps[|steps| - 1].now);
  }

  // ---- replies ----

  /** Python reads this datagram as a valid DISCOVER. */
  predicate IsDiscover(data: Bytes) {
    match Decoded(data[..Min(|data|, MAX_DATAGRAM + 1)])
    case None => false
    case Some(msg) => Get(msg, K_TYPE) == Some(PStr(DISCOVER))
  }

  lemma OnlyDiscoverAnswered(own: Dict, data: Bytes, lib: Lib)
    requires PyAnswer(data, own, lib).Reply?
    ensures IsDiscover(data)
  {
  }

  lemma TurnCounts(c: Config, next: Option<real>, t: Step)
    ensures Replies(Turn(c, next, t)) <= Deliveries(Turn(c, next, t), IsDiscover)
  {
    hide Announce, Encoded, PyAnswer, IsDiscover, Body, Replies, Deliveries;
    var top, body := Top(c, next, t), Body(c, t);
    BodyCounts(c, t);
    if top == [] { NoEvents(IsDiscover); } else { OneEvent(top[0], IsDiscover); assert top == [top[0]]; }
    OneEvent(Read(false), IsDiscover);
    OneEvent(Read(true), IsDiscover);
    CountsConcat([Read(false)], top, IsDiscover);
    CountsConcat([Read(false)] + top, body, IsDiscover);
  }

  lemma BodyCounts(c: Config, t: Step)
    ensures Replies(Body(c, t)) <= Deliveries(Body(c, t), IsDiscover)
  {
    if t.inbound.Datagram? {
      var r, f := Received(t.inbound.from, t.inbound.data), Read(t.stopMid);
      var a := if t.stopMid then [] else Answered(c, t.inbound.from, t.inbound.data, t);
      if PyAnswer(t.inbound.data, Announce(c, None, t.filterAs), c.lib).Reply? {
        OnlyDiscoverAnswered(Announce(c, None, t.filterAs), t.inbound.data, c.lib);
      }
      hide Announce, Encoded, PyAnswer, IsDiscover, Replies, Deliveries;
      OneEvent(r, IsDiscover);
      OneEvent(f, IsDiscover);
      TwoEvents(r, f, IsDiscover);
      if a == [] { NoEvents(IsDiscover); } else { OneEvent(a[0], IsDiscover); assert a == [a[0]]; }
      assert Body(c, t) == [r, f] + a;
      CountsConcat([r, f], a, IsDiscover);
    } else {
      NoEvents(IsDiscover);
    }
  }

  /** Replies never outnumber the DISCOVERs delivered: nothing else, and no ANNOUNCE in
      particular, is answered. */
  lemma {:induction false} NoMoreRepliesThanQueries(c: Config, next: Option<real>, steps: seq<Step>)
    ensures Replies(Log(c, next, steps)) <= Deliveries(Log(c, next, steps), IsDiscover)
    decreases |steps|
  {
    hide Turn, IsDiscover, NextAnnounce;
    if steps != [] {
      var turn, rest := Turn(c, next, steps[0]), Log(c, NextAnnounce(c, next, steps[0]), steps[1..]);
      TurnCounts(c, next, steps[0]);
      if !Ends(turn) {
        NoMoreRepliesThanQueries(c, NextAnnounce(c, next, steps[0]), steps[1..]);
        CountsConcat(turn, rest, IsDiscover);
      }
    }
  }

  /** Every reply goes to the source of the query received just before it and is the ANNOUNCE
      that echoes the query's id. */
  ghost predicate GoodReply(c: Config, log: seq<Event>, i: nat)
    requires i < |log| && log[i].Reply?
  {
    && i >= 2 && log[i - 2].Received? && log[i - 2].from == log[i].to && log[i - 1] == Read(false)
    && ReplyTo(c, log[i - 2].data, log[i].data)
  }

  ghost predicate ReplyTo(c: Config, query: Bytes, reply: Bytes) {
    exists seen: Process, p: Process :: ReplyAs(c, query, reply, seen, p)
  }

  predicate ReplyAs(c: Config, query: Bytes, reply: Bytes, seen: Process, p: Process) {
    var answer := PyAnswer(query, Announce(c, None, seen), c.lib);
    answer.Reply? && Encoded(Announce(c, QidStr(answer.qid), p)) == Some(reply)
  }

  lemma TurnReplies(c: Config, next: Option<real>, t: Step, i: nat)
    requires i < |Turn(c, next, t)| && Turn(c, next, t)[i].Reply?
    ensures GoodReply(c, Turn(c, next, t), i)
  {
    hide Announce, Encoded, PyAnswer;
    var top, body := Top(c, next, t), Body(c, t);
    assert i >= 1 + |top|;
    var k := i - 1 - |top|;
    assert body[k] == Turn(c, next, t)[i];
    assert k == 2 && body[0] == Turn(c, next, t)[i - 2] && body[1] == Turn(c, next, t)[i - 1];
    assert ReplyAs(c, body[0].data, body[2].data, t.filterAs, t.replyAs);
  }

  lemma {:induction false} RepliesAreGood(c: Config, next: Option<real>, steps: seq<Step>, i: nat)
    requires i < |Log(c, next, steps)| && Log(c, next, steps)[i].Reply?
    ensures GoodReply(c, Log(c, next, steps), i)
    decreases |steps|
  {
    hide Turn, NextAnnounce, ReplyTo;
    var turn := Turn(c, next, steps[0]);
    if i < |turn| {
      TurnReplies(c, next, steps[0], i);
    } else {
      RepliesAreGood(c, NextAnnounce(c, next, steps[0]), steps[1..], i - |turn|);
    }
  }

  // ---- survival ----

  /** The beacon due in this turn does not fit a datagram. */
  predicate BeaconTooBig(c: Config, next: Option<real>, t: Step) {
    BeaconDue(next, t.now) && |Dumps(PDict(Announce(c, None, t.beaconAs)))| > MAX_DATAGRAM
  }

  /** The turn answers a query whose id, echoed, does not fit a datagram. */
  predicate ReplyTooBig(c: Config, t: Step) {
    && t.inbound.Datagram? && !t.stopMid
    && match PyAnswer(t.inbound.data, Announce(c, None, t.filterAs), c.lib)
       case Reply(Some(PStr(q))) => |Dumps(PDict(Announce(c, None, t.replyAs)))| + 7 + |Dumps(PStr(q))| > MAX_DATAGRAM
       case _ => false
  }

  predicate Fatal(c: Config, next: Option<real>, t: Step) {
    !t.stopTop && (BeaconTooBig(c, next, t) || ReplyTooBig(c, t))
  }

  lemma AnsweredQid(own: Dict, data: Bytes, lib: Lib)
    requires PyAnswer(data, own, lib).Reply?
    ensures var q := PyAnswer(data, own, lib).qid; q.Some? && q.value.PStr?
  {
    var msg := Decoded(data[..Min(|data|, MAX_DATAGRAM + 1)]).value;
    Names();
    assert DISCOVER != ANNOUNCE;
    hide L;
    assert ValidDiscover(msg);
  }

  lemma AnsweredCrash(c: Config, t: Step)
    requires t.inbound.Datagram? && !t.stopMid
    ensures Crash in Answered(c, t.inbound.from, t.inbound.data, t) <==> ReplyTooBig(c, t)
  {
    if PyAnswer(t.inbound.data, Announce(c, None, t.filterAs), c.lib).Reply? {
      AnsweredQid(Announce(c, None, t.filterAs), t.inbound.data, c.lib);
      var q := PyAnswer(t.inbound.data, Announce(c, None, t.filterAs), c.lib).qid.value.s;
      ReplySize(c.service, c.id, q, None, t.replyAs);
    }
    hide BuildAnnounce, Dumps, PyAnswer;
  }

  lemma TurnCrash(c: Config, next: Option<real>, t: Step)
    ensures Crash in Turn(c, next, t) <==> Fatal(c, next, t)
  {
    if t.inbound.Datagram? && !t.stopMid { AnsweredCrash(c, t); }
    hide Announce, Dumps, PyAnswer, Answered, ReplyTooBig;
    var top := Top(c, next, t);
    assert Ends(top) <==> BeaconTooBig(c, next, t);
    assert Crash in top <==> BeaconTooBig(c, next, t);
    assert Crash in Body(c, t) <==>
           t.inbound.Datagram? && !t.stopMid && Crash in Answered(c, t.inbound.from, t.inbound.data, t);
  }

  /** The run gets as far as turn `k`: no turn before it saw the flag set or raised. */
  predicate Reached(c: Config, next: Option<real>, steps: seq<Step>, k: nat)
    decreases |steps|
  {
    k < |steps| &&
    (k == 0 || (!Ends(Turn(c, next, steps[0])) && Reached(c, NextAnnounce(c, next, steps[0]), steps[1..], k - 1)))
  }

  /** When the next beacon is due at the top of turn `k`. */
  function NextAt(c: Config, next: Option<real>, steps: seq<Step>, k: nat): Option<real>
    requires k < |steps|
    decreases k
  {
    if k == 0 then next else NextAt(c, NextAnnounce(c, next, steps[0]), steps[1..], k - 1)
  }

  ghost predicate FatalTurn(c: Config, next: Option<real>, steps: seq<Step>, k: nat) {
    Reached(c, next, steps, k) && Fatal(c, NextAt(c, next, steps, k), steps[k])
  }

  lemma FatalLater(c: Config, next: Option<real>, steps: seq<Step>)
    requires steps != [] && !Ends(Turn(c, next, steps[0]))
    ensures (exists k: nat :: FatalTurn(c, next, steps, k)) <==>
            FatalTurn(c, next, steps, 0) ||
            exists k: nat :: FatalTurn(c, NextAnnounce(c, next, steps[0]), steps[1..], k)
  {
    hide Turn, Ends, Fatal;
    var next' := NextAnnounce(c, next, steps[0]);
    forall k: nat | k > 0 ensures FatalTurn(c, next, steps, k) <==> FatalTurn(c, next', steps[1..], k - 1) {}
    if k: nat :| FatalTurn(c, next', steps[1..], k) { assert FatalTurn(c, next, steps, k + 1); }
    if k: nat :| FatalTurn(c, next, steps, k) {
      if k > 0 { assert FatalTurn(c, next', steps[1..], k - 1); }
    }
  }

  /** A ProtocolError of `encode` leaves the loop iff some turn the run reaches has a beacon due that does not
      fit a datagram, or answers an id that makes its reply too big. */
  lemma {:induction false} CrashIff(c: Config, next: Option<real>, steps: seq<Step>)
    ensures Crash in Log(c, next, steps) <==> exists k: nat :: FatalTurn(c, next, steps, k)
    decreases |steps|
  {
    hide Turn, Fatal, NextAnnounce;
    if steps == [] {
      assert forall k: nat :: !FatalTurn(c, next, steps, k);
    } else {
      TurnCrash(c, next, steps[0]);
      assert FatalTurn(c, next, steps, 0) <==> Fatal(c, next, steps[0]);
      if Ends(Turn(c, next, steps[0])) {
        assert forall k: nat | k > 0 :: !FatalTurn(c, next, steps, k);
      } else {
        FatalLater(c, next, steps);
        CrashIff(c, NextAnnounce(c, next, steps[0]), steps[1..]);
        FatalEnds(c, next, steps[0]);
      }
    }
  }

  lemma FatalEnds(c: Config, next: Option<real>, t: Step)
    ensures Fatal(c, next, t) ==> Ends(Turn(c, next, t))
  {
    if t.inbound.Datagram? && !t.stopMid { AnsweredCrash(c, t); }
    hide Announce, Dumps, PyAnswer, ReplyTooBig;
    var body, top := Body(c, t), Top(c, next, t);
    if Fatal(c, next, t) && !BeaconTooBig(c, next, t) {
      assert body[|body| - 1] == Crash;
      EndsConcat([Read(false)] + top, body);
    }
  }

  /** A query with a UUID, or one that is not answered. */
  predicate UuidQuery(c: Config, t: Step) {
    t.inbound.Datagram? ==>
      match PyAnswer(t.inbound.data, Announce(c, None, t.filterAs), c.lib)
      case Reply(Some(PStr(q))) => Plain(q) && |q| == 36
      case _ => true
  }

  /** The same process at another time of day, in the same format. */
  predicate LaterOn(p: Process, q: Process) { q == p.(now := q.now) && Plain(q.now) && |q.now| == |p.now| }

  /** When every query id is a UUID it is enough that the unsolicited announce, at any one
      time, encodes to at most 1355 bytes. */
  lemma {:induction false} UuidQueriesSurvive(c: Config, next: Option<real>, steps: seq<Step>, p: Process)
    requires forall t <- steps :: UuidQuery(c, t) && LaterOn(p, t.beaconAs) && LaterOn(p, t.replyAs)
    requires Plain(p.now) && |Dumps(PDict(Announce(c, None, p)))| <= 1355
    ensures Crash !in Log(c, next, steps)
  {
    forall k: nat ensures !FatalTurn(c, next, steps, k) {
      if Reached(c, next, steps, k) {
        var t := steps[k];
        TimeSize(c.service, c.id, None, p, t.beaconAs.now);
        TimeSize(c.service, c.id, None, p, t.replyAs.now);
        if t.inbound.Datagram? && PyAnswer(t.inbound.data, Announce(c, None, t.filterAs), c.lib).Reply? {
          AnsweredQid(Announce(c, None, t.filterAs), t.inbound.data, c.lib);
          PyQuotedSize(PyAnswer(t.inbound.data, Announce(c, None, t.filterAs), c.lib).qid.value.s);
        }
        hide BuildAnnounce, Dumps, PyAnswer;
      }
    }
    CrashIff(c, next, steps);
  }

  // ---- every query is answered ----

  /** What follows a datagram received at `i` in the turn `t`, with the flag seen clear at `i + 1`:
      the reply, to its source and echoing its id; or the error of `encode` if that does not fit;
      or neither if the datagram is not to be answered. */
  predicate AnsweredAt(c: Config, log: seq<Event>, i: nat, t: Step)
    requires i < |log| && log[i].Received?
  {
    && t.inbound == Datagram(log[i].from, log[i].data)
    && match PyAnswer(log[i].data, Announce(c, None, t.filterAs), c.lib)
       case Silent => i + 2 < |log| ==> !log[i + 2].Reply? && !log[i + 2].Crash?
       case Reply(qid) =>
         i + 2 < |log| &&
         match Encoded(Announce(c, QidStr(qid), t.replyAs))
         case None => log[i + 2] == Crash
         case Some(reply) => log[i + 2].Reply? && log[i + 2].to == log[i].from && log[i + 2].data == reply
  }

  predicate ToAnswer(log: seq<Event>, i: nat) {
    i + 1 < |log| && log[i].Received? && log[i + 1] == Read(false)
  }

  lemma TurnAnswers(c: Config, next: Option<real>, t: Step, i: nat)
    requires i < |Turn(c, next, t)| && Turn(c, next, t)[i].Received?
    ensures i + 1 < |Turn(c, next, t)|
    ensures ToAnswer(Turn(c, next, t), i) ==> AnsweredAt(c, Turn(c, next, t), i, t)
  {
    hide Announce, Encoded, PyAnswer;
    var top, body := Top(c, next, t), Body(c, t);
    assert i >= 1 + |top|;
    var k := i - 1 - |top|;
    assert body[k] == Turn(c, next, t)[i];
    assert k == 0 && Turn(c, next, t)[i + 1] == body[1];
    assert |body| > 2 ==> Turn(c, next, t)[i + 2] == body[2];
  }

  lemma TurnLooks(c: Config, next: Option<real>, t: Step)
    ensures Turn(c, next, t) != [] && Turn(c, next, t)[0].Read?
  {
    hide Top, Body;
  }

  lemma LogLooks(c: Config, next: Option<real>, steps: seq<Step>)
    ensures Log(c, next, steps) != [] ==> Log(c, next, steps)[0].Read?
  {
    if steps != [] { TurnLooks(c, next, steps[0]); }
    hide Turn;
  }

  /** Every query that is to be answered is answered, in the turn that received it, and no other
      is; `k` is that turn. */
  lemma {:induction false} QueriesAreAnswered(c: Config, next: Option<real>, steps: seq<Step>, i: nat) returns (k: nat)
    requires ToAnswer(Log(c, next, steps), i)
    ensures Reached(c, next, steps, k) && AnsweredAt(c, Log(c, next, steps), i, steps[k])
    decreases |steps|
  {
    hide Turn, NextAnnounce, Announce, Encoded, PyAnswer, Ends;
    var turn, log := Turn(c, next, steps[0]), Log(c, next, steps);
    if i < |turn| {
      k := 0;
      TurnAnswers(c, next, steps[0], i);
      LogLooks(c, NextAnnounce(c, next, steps[0]), steps[1..]);
      assert turn[i] == log[i] && turn[i + 1] == log[i + 1];
    } else {
      var later := Log(c, NextAnnounce(c, next, steps[0]), steps[1..]);
      assert log == turn + later;
      k := QueriesAreAnswered(c, NextAnnounce(c, next, steps[0]), steps[1..], i - |turn|);
      assert forall j | |turn| <= j < |log| :: log[j] == later[j - |turn|];
      k := k + 1;
    }
  }

  ghost predicate AllAnswered(c: Config, next: Option<real>, steps: seq<Step>) {
    forall i: nat | ToAnswer(Log(c, next, steps), i) ::
      exists k: nat :: Reached(c, next, steps, k) && AnsweredAt(c, Log(c, next, steps), i, steps[k])
  }

  lemma AllAreAnswered(c: Config, next: Option<real>, steps: seq<Step>)
    ensures AllAnswered(c, next, steps)
  {
    hide Log, NextAnnounce, Turn, Announce, Encoded, PyAnswer;
    forall i: nat | ToAnswer(Log(c, next, steps), i)
      ensures exists k: nat :: Reached(c, next, steps, k) && AnsweredAt(c, Log(c, next, steps), i, steps[k])
    {
      var k := QueriesAreAnswered(c, next, steps, i);
    }
  }

  lemma TurnReceives(c: Config, next: Option<real>, t: Step)
    requires !t.stopTop && !BeaconTooBig(c, next, t) && t.inbound.Datagram?
    ensures Received(t.inbound.from, t.inbound.data) in Turn(c, next, t)
  {
    hide Announce, Dumps, PyAnswer;
    var turn, n := Turn(c, next, t), 1 + |Top(c, next, t)|;
    assert !Ends(Top(c, next, t)) && n < |turn| && turn[n] == Body(c, t)[0];
  }

  /** And every datagram that arrives in a turn the run reaches is received, unless a beacon that
      does not fit ends the turn first. */
  lemma {:induction false} AllReceived(c: Config, next: Option<real>, steps: seq<Step>, k: nat)
    requires Reached(c, next, steps, k) && !steps[k].stopTop && !BeaconTooBig(c, NextAt(c, next, steps, k), steps[k])
    requires steps[k].inbound.Datagram?
    ensures Received(steps[k].inbound.from, steps[k].inbound.data) in Log(c, next, steps)
    decreases k
  {
    hide Announce, Dumps, PyAnswer, Turn, BeaconTooBig, NextAnnounce, Ends;
    if k == 0 {
      TurnReceives(c, next, steps[0]);
    } else {
      AllReceived(c, NextAnnounce(c, next, steps[0]), steps[1..], k - 1);
    }
  }

  // ---- no interval, no beacons ----

  lemma {:induction false} NeverBeacons(c: Config, steps: seq<Step>)
    ensures Beacons(Log(c, None, steps)) == []
    decreases |steps|
  {
    hide Turn, Announce, Encoded;
    if steps != [] {
      TurnBeacons(c, None, steps[0]);
      if !Ends(Turn(c, None, steps[0])) {
        NeverBeacons(c, steps[1..]);
        BeaconsConcat(Turn(c, None, steps[0]), Log(c, None, steps[1..]));
      }
    }
  }

  /** An interval of zero, the default, or less, means no beacon at all. */
  lemma SolicitedOnly(c: Config, start: real, steps: seq<Step>)
    requires c.interval <= 0.0
    ensures Beacons(Log(c, FirstAnnounce(c, start), steps)) == []
  {
    NeverBeacons(c, steps);
  }

  // ---- the next beacon is timed from the clock read after the last ----

  /** However long local work takes, and whatever the clock reads, no beacon goes out before it is
      due. */
  lemma {:induction false} NoneEarly(c: Config, due: real, steps: seq<Step>)
    ensures var times := Beacons(Log(c, Some(due), steps)); times != [] ==> times[0] >= due
    decreases |steps|
  {
    hide Turn, Announce, Encoded, Ends;
    if steps != [] {
      var t := steps[0];
      TurnBeacons(c, Some(due), t);
      if !Ends(Turn(c, Some(due), t)) {
        var due' := NextAnnounce(c, Some(due), t).value;
        NoneEarly(c, due', steps[1..]);
        var later := Log(c, Some(due'), steps[1..]);
        BeaconsConcat(Turn(c, Some(due), t), later);
        assert [] + Beacons(later) == Beacons(later);
      }
    }
  }

  /** After a turn that sends a beacon the next one comes no sooner than the interval after the
      clock that turn reads behind it. */
  lemma NextBeacon(c: Config, due: real, t: Step, steps: seq<Step>)
    requires t.now >= due && !Ends(Turn(c, Some(due), t))
    ensures var times := Beacons(Log(c, Some(due), [t] + steps));
      times != [] && times[0] == t.now && (|times| > 1 ==> times[1] >= t.after + c.interval)
  {
    hide Turn, Announce, Encoded, Ends;
    TailOfCons(t, steps);
    TurnBeacons(c, Some(due), t);
    NoneEarly(c, t.after + c.interval, steps);
    BeaconsConcat(Turn(c, Some(due), t), Log(c, Some(t.after + c.interval), steps));
  }
}
