/** What a responder's loop does, as a log of events, and what the stop flag does to it. */
module ResponderLog {
  import opened Bytes

  /** An IPv4 address and port. */
  type Address = nat

  /** How the loop's `recvfrom` came back. */
  datatype Inbound = Nothing | Datagram(from: Address, data: Bytes)

  datatype Event =
    | Read(stop: bool)                                // the loop looks at the stop flag
    | Received(from: Address, data: Bytes)
    | Reply(at: real, to: Address, data: Bytes)       // unicast
    | Beacon(at: real, data: Bytes)                   // to the group
    | Crash                                           // a ProtocolError of `encode` leaves the loop

  predicate IsSend(e: Event) { e.Reply? || e.Beacon? }

  /** The flag is set just before event `p`: reads before see it clear, reads after see it set. */
  predicate SetAt(log: seq<Event>, p: nat) {
    forall i | 0 <= i < |log| && log[i].Read? :: log[i].stop <==> i >= p
  }

  /** Sends from event `p` on. */
  function SentFrom(log: seq<Event>, p: nat): nat {
    if log == [] then 0
    else (if p == 0 && IsSend(log[0]) then 1 else 0) + SentFrom(log[1..], if p == 0 then 0 else p - 1)
  }

  /** At most `limit` sends between one look at the flag and the next, `used` of them already
      made, and nothing after the flag is seen set. */
  predicate Polls(log: seq<Event>, limit: nat, used: nat) {
    log == [] ||
    (match log[0]
     case Read(stop) => if stop then |log| == 1 else Polls(log[1..], limit, 0)
     case Received(_, _) => Polls(log[1..], limit, used)
     case Crash => |log| == 1
     case _ => used < limit && Polls(log[1..], limit, used + 1))
  }

  lemma PollsCons(e: Event, log: seq<Event>, limit: nat, used: nat)
    ensures Polls([e] + log, limit, used) <==>
            match e
            case Read(stop) => if stop then log == [] else Polls(log, limit, 0)
            case Received(_, _) => Polls(log, limit, used)
            case Crash => log == []
            case _ => used < limit && Polls(log, limit, used + 1)
  {
    TailOfCons(e, log);
  }

  lemma SetAtTail(log: seq<Event>, p: nat)
    requires log != [] && SetAt(log, p)
    ensures SetAt(log[1..], if p == 0 then 0 else p - 1)
  {
    assert forall i | 0 <= i < |log[1..]| :: log[1..][i] == log[i + 1];
  }

  /** Whenever the flag is set, at most `limit` datagrams leave afterwards. */
  lemma {:induction false} FewSendsAfter(log: seq<Event>, limit: nat, used: nat, p: nat)
    requires Polls(log, limit, used) && used <= limit && SetAt(log, p)
    ensures SentFrom(log, p) <= limit
    ensures p == 0 ==> SentFrom(log, p) <= limit - used
  {
    if log != [] {
      SetAtTail(log, p);
      if log[0].Read? || log[0].Crash? {
        if |log| > 1 { FewSendsAfter(log[1..], limit, 0, p - 1); } else { assert log[1..] == []; }
      } else {
        FewSendsAfter(log[1..], limit, if IsSend(log[0]) then used + 1 else used, if p == 0 then 0 else p - 1);
      }
    }
  }

  // ---- beacons ----

  function Beacons(log: seq<Event>): seq<real> {
    if log == [] then [] else (if log[0].Beacon? then [log[0].at] else []) + Beacons(log[1..])
  }

  lemma {:induction false} BeaconsConcat(a: seq<Event>, b: seq<Event>)
    ensures Beacons(a + b) == Beacons(a) + Beacons(b)
  {
    ConsConcat(a, b);
    if a == [] {
      assert [] + Beacons(b) == Beacons(b);
    } else {
      BeaconsConcat(a[1..], b);
      Assoc(if a[0].Beacon? then [a[0].at] else [], Beacons(a[1..]), Beacons(b));
    }
  }

  /** Beacons due at `due` and then every `interval`, none more than 0.75 s late. */
  predicate Regular(times: seq<real>, due: real, interval: real) {
    times == [] || (due <= times[0] <= due + 0.75 && Regular(times[1..], times[0] + interval, interval))
  }

  lemma RegularCons(time: real, later: seq<real>, due: real, interval: real)
    requires due <= time <= due + 0.75 && Regular(later, time + interval, interval)
    ensures Regular([time] + later, due, interval)
  {
    TailOfCons(time, later);
  }

  predicate Paced(times: seq<real>, interval: real) {
    forall i: nat | i + 1 < |times| :: interval <= times[i + 1] - times[i] <= interval + 0.75
  }

  lemma RegularPaced(times: seq<real>, due: real, interval: real)
    requires Regular(times, due, interval)
    ensures Paced(times, interval) && (times != [] ==> due <= times[0] <= due + 0.75)
  {
    forall i: nat | i + 1 < |times| ensures interval <= times[i + 1] - times[i] <= interval + 0.75 {
      RegularGaps(times, due, interval, i);
    }
  }

  /** Consecutive beacons are at least the interval and at most the interval and 0.75 s apart. */
  lemma {:induction false} RegularGaps(times: seq<real>, due: real, interval: real, i: nat)
    requires Regular(times, due, interval) && i + 1 < |times|
    ensures interval <= times[i + 1] - times[i] <= interval + 0.75
  {
    if i > 0 { RegularGaps(times[1..], times[0] + interval, interval, i - 1); }
  }

  /** At a look at the clock at `clock` no beacon is outstanding: the one due after the last of
      `times` is not due yet. */
  predicate KeptUp(times: seq<real>, due: real, interval: real, clock: real) {
    if times == [] then clock < due else KeptUp(times[1..], times[0] + interval, interval, clock)
  }

  lemma KeptUpCons(time: real, later: seq<real>, due: real, interval: real, clock: real)
    requires KeptUp(later, time + interval, interval, clock)
    ensures KeptUp([time] + later, due, interval, clock)
  {
    TailOfCons(time, later);
  }

  /** One turn, with a beacon at `now` if one is due. */
  lemma KeptUpTurn(isDue: bool, now: real, later: seq<real>, due: real, interval: real, clock: real)
    requires KeptUp(later, if isDue then now + interval else due, interval, clock)
    ensures KeptUp((if isDue then [now] else []) + later, due, interval, clock)
  {
    if isDue { KeptUpCons(now, later, due, interval, clock); } else { assert [] + later == later; }
  }

  /** So enough beacons have gone out for the time that has passed. */
  lemma {:induction false} EnoughBeacons(times: seq<real>, due: real, interval: real, clock: real)
    requires Regular(times, due, interval) && KeptUp(times, due, interval, clock)
    ensures clock < due + (|times| as real) * (interval + 0.75)
  {
    if times != [] {
      EnoughBeacons(times[1..], times[0] + interval, interval, clock);
      var n := |times[1..]| as real;
      assert |times| as real == n + 1.0;
      assert (n + 1.0) * (interval + 0.75) == n * (interval + 0.75) + (interval + 0.75);
    }
  }

  // ---- replies ----

  function Replies(log: seq<Event>): nat {
    if log == [] then 0 else (if log[0].Reply? then 1 else 0) + Replies(log[1..])
  }

  /** The datagrams delivered that `discover` accepts as a DISCOVER. */
  function Deliveries(log: seq<Event>, discover: Bytes -> bool): nat {
    if log == [] then 0
    else (if log[0].Received? && discover(log[0].data) then 1 else 0) + Deliveries(log[1..], discover)
  }

  lemma {:induction false} CountsConcat(a: seq<Event>, b: seq<Event>, discover: Bytes -> bool)
    ensures Replies(a + b) == Replies(a) + Replies(b)
    ensures Deliveries(a + b, discover) == Deliveries(a, discover) + Deliveries(b, discover)
  {
    ConsConcat(a, b);
    if a != [] { CountsConcat(a[1..], b, discover); }
  }

  lemma OneEvent(e: Event, discover: Bytes -> bool)
    ensures Beacons([e]) == if e.Beacon? then [e.at] else []
    ensures Replies([e]) == if e.Reply? then 1 else 0
    ensures Deliveries([e], discover) == if e.Received? && discover(e.data) then 1 else 0
  {
    assert [e][1..] == [];
  }

  lemma TwoEvents(e: Event, f: Event, discover: Bytes -> bool)
    ensures Beacons([e, f]) == Beacons([e]) + Beacons([f])
    ensures Replies([e, f]) == Replies([e]) + Replies([f])
    ensures Deliveries([e, f], discover) == Deliveries([e], discover) + Deliveries([f], discover)
  {
    assert [e, f] == [e] + [f];
    BeaconsConcat([e], [f]);
    CountsConcat([e], [f], discover);
  }
}
