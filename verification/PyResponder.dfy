/** `responder.py`: the thread object, its loop proved against `PyLoop` and what `PyLoopProofs`
    proves of it. */
module PyResponder {
  import opened Bytes
  import opened PyJson
  import opened Protocol
  import opened ResponderLog
  import opened PyLoop
  import opened PyLoopProofs

  /** What holds of every run, however the flag is set and whatever arrives. */
  lemma Promises(c: Config, start: real, steps: seq<Step>)
    ensures var done := Log(c, FirstAnnounce(c, start), steps);
      && (forall p: nat | SetAt(done, p) :: SentFrom(done, p) <= 1)
      && Replies(done) <= Deliveries(done, IsDiscover) && AllAnswered(c, FirstAnnounce(c, start), steps)
  {
    AllAreAnswered(c, FirstAnnounce(c, start), steps);
    hide AllAnswered;
    var done := Log(c, FirstAnnounce(c, start), steps);
    forall p: nat | SetAt(done, p) ensures SentFrom(done, p) <= 1 { AtMostOneAfterStop(c, start, steps, p); }
    NoMoreRepliesThanQueries(c, FirstAnnounce(c, start), steps);
  }

  class Responder {
    const c: Config
    var sockOpen: bool
    var log: seq<Event>

    constructor (c: Config)
      ensures this.c == c && !sockOpen && log == []
    {
      this.c, sockOpen, log := c, false, [];
    }

    method Emit(e: Event)
      modifies this`log
      ensures log == old(log) + [e]
    {
      log := log + [e];
    }

    /** `run`: the `finally` closes the socket however the loop ends; `ended` is false while
        the loop is still going when the script stops. */
    method Run(start: real, steps: seq<Step>) returns (ended: bool)
      modifies this
      ensures var done := Log(c, FirstAnnounce(c, start), steps);
        && log == old(log) + done && sockOpen == !ended && (ended <==> Ends(done))
        && (forall p: nat | SetAt(done, p) :: SentFrom(done, p) <= 1)
        && Replies(done) <= Deliveries(done, IsDiscover) && AllAnswered(c, FirstAnnounce(c, start), steps)
    {
      Promises(c, start, steps);
      hide Turn, Ends, NextAnnounce, SetAt, SentFrom, Replies, Deliveries, AllAnswered;
      sockOpen := true;
      var next := if c.interval > 0.0 then Some(start + c.interval) else None;
      ghost var done := Log(c, next, steps);
      var i := 0;
      ended := false;
      assert steps[0..] == steps;
      while i < |steps| && !ended
        invariant 0 <= i <= |steps| && sockOpen
        invariant ended ==> log == old(log) + done && Ends(done)
        invariant !ended ==> log + Log(c, next, steps[i..]) == old(log) + done
        invariant !ended ==> (Ends(done) <==> Ends(Log(c, next, steps[i..])))
      {
        ghost var before, rest := log, Log(c, NextAnnounce(c, next, steps[i]), steps[i + 1..]);
        assert steps[i..][1..] == steps[i + 1..];
        EndsConcat(Turn(c, next, steps[i]), rest);
        Assoc(before, Turn(c, next, steps[i]), rest);
        ended, next := OneTurn(next, steps[i]);
        i := i + 1;
      }
      if ended { sockOpen := false; } else { NotEnded(); }
    }

    /** One turn of the `while`. */
    method OneTurn(next: Option<real>, t: Step) returns (ended: bool, next': Option<real>)
      modifies this`log
      ensures log == old(log) + Turn(c, next, t) && (ended <==> Ends(Turn(c, next, t)))
      ensures !ended ==> next' == NextAnnounce(c, next, t)
    {
      hide Top, Body;
      next' := next;
      Emit(Read(t.stopTop));
      if t.stopTop { return true, next'; }
      ghost var before := log;
      ended, next' := Announcing(next, t);
      if !ended {
        Assoc(before, Top(c, next, t), Body(c, t));
        ended := Receive(t);
      }
      EndsConcat([Read(false)], Top(c, next, t));
      EndsConcat([Read(false)] + Top(c, next, t), Body(c, t));
      Assoc(old(log), [Read(false)], Top(c, next, t));
      Assoc(old(log), [Read(false)] + Top(c, next, t), Body(c, t));
    }

    method Announcing(next: Option<real>, t: Step) returns (crashed: bool, next': Option<real>)
      modifies this`log
      ensures log == old(log) + Top(c, next, t) && (crashed <==> Ends(Top(c, next, t)))
      ensures !crashed ==> next' == NextAnnounce(c, next, t)
    {
      hide Announce, Encoded;
      next' := next;
      if next.Some? && t.now >= next.value {
        var bare := Encoded(Announce(c, None, t.beaconAs));
        if bare.None? {
          Emit(Crash);
          return true, next';
        }
        Emit(Beacon(t.now, bare.value));
        next' := Some(t.after + c.interval);
      }
      return false, next';
    }

    method Receive(t: Step) returns (ended: bool)
      modifies this`log
      ensures log == old(log) + Body(c, t) && (ended <==> Ends(Body(c, t)))
    {
      hide Announce, Encoded, PyAnswer;
      if t.inbound.Nothing? { return false; }
      Emit(Received(t.inbound.from, t.inbound.data));
      Emit(Read(t.stopMid));
      if t.stopMid { return true; }
      var answer := PyAnswer(t.inbound.data, Announce(c, None, t.filterAs), c.lib);
      if answer.Silent? { return false; }
      var reply := Encoded(Announce(c, QidStr(answer.qid), t.replyAs));
      if reply.None? {
        Emit(Crash);
        return true;
      }
      Emit(Event.Reply(t.at, t.inbound.from, reply.value));
      return false;
    }
  }
}
