/** `Responder.cpp`: the responder object, its loop proved against `CppLoop` and what
    `CppLoopProofs` proves of it, and `start` and `stop` as their caller sees them; `Lifecycle`
    interleaves the caller and the loop. */
module CppResponder {
  import opened Bytes
  import opened CppJson
  import opened CppMessages
  import opened Protocol
  import opened ResponderLog
  import opened CppLoop
  import opened CppLoopProofs

  /** What holds of every run, however the flag is set and whatever arrives. */
  lemma Promises(c: Config, start: real, steps: seq<Step>)
    ensures var done := Log(c, start, steps);
      && (forall p: nat | SetAt(done, p) :: SentFrom(done, p) <= 2)
      && Replies(done) <= Deliveries(done, Discovers(c)) && AllAnswered(c, done)
  {
    QueriesAreAnswered(c, start, steps);
    var done := Log(c, start, steps);
    forall p: nat | SetAt(done, p) ensures SentFrom(done, p) <= 2 { AtMostTwoAfterStop(c, start, steps, p); }
    NoMoreRepliesThanQueries(c, start, steps);
  }

  /** The last thing a loop that ends does is to see the flag. */
  lemma {:induction false} EndsSeen(c: Config, next: real, steps: seq<Step>)
    requires exists t <- steps :: LastTurn(t)
    ensures Log(c, next, steps) != [] && Log(c, next, steps)[|Log(c, next, steps)| - 1] == Read(true)
    decreases |steps|
  {
    hide Turn, LastTurn;
    if LastTurn(steps[0]) {
      TurnEnds(c, next, steps[0]);
    } else {
      var t :| t in steps && LastTurn(t);
      assert t in steps[1..];
      EndsSeen(c, NextAnnounce(c, next, steps[0]), steps[1..]);
    }
  }

  lemma TurnEnds(c: Config, next: real, t: Step)
    requires LastTurn(t)
    ensures Turn(c, next, t) != [] && Turn(c, next, t)[|Turn(c, next, t)| - 1] == Read(true)
  {
    hide Answered, Bottom, Arrived;
  }

  class Responder {
    const c: Config
    var sock: int
    var stopFlag: bool
    var joinable: bool
    var log: seq<Event>

    /** A thread has its socket.  The converse fails after a `start` whose thread could not be
        created; `Lifecycle` says exactly when. */
    ghost predicate Valid() reads this { joinable ==> sock >= 0 }

    constructor (c: Config)
      ensures this.c == c && Valid() && !joinable && !stopFlag && log == []
    {
      this.c, sock, stopFlag, joinable, log := c, -1, false, false, [];
    }

    /** `start`, given what `socket`, `bind`, joining the group and creating the thread came to.
        Assigning to a joinable `std::thread` would terminate the process, hence the
        requirement. */
    method Start(fd: int, bound: bool, joined: bool, threaded: bool) returns (ok: bool)
      requires Valid() && !joinable
      modifies this`sock, this`stopFlag, this`joinable
      ensures Valid() && ok == joinable == (fd >= 0 && bound && joined && threaded)
      ensures if fd >= 0 && bound && joined then sock == fd && !stopFlag else sock < 0 && stopFlag == old(stopFlag)
    {
      sock := fd;
      if sock < 0 { return false; }
      if !bound {
        sock := -1;
        return false;
      }
      if !joined {
        sock := -1;
        return false;
      }
      stopFlag := false;
      if !threaded { return false; }         // the exception of `std::thread`
      joinable := true;
      return true;
    }

    /** `stop`; it is safe to call again.  `next` and `rest` are where the loop is when the flag is
        set and what is left of its script: the join returns once the loop has seen the flag,
        which `Lifecycle.StopEnds` shows it does. */
    method Stop(next: real, rest: seq<Step>)
      requires Valid() && (joinable ==> exists t <- rest :: LastTurn(t))
      modifies this`sock, this`stopFlag, this`joinable, this`log
      ensures Valid() && !joinable
      ensures if old(joinable)
              then sock < 0 && stopFlag && log == old(log) + Log(c, next, rest) && log[|log| - 1] == Read(true)
              else sock == old(sock) && stopFlag == old(stopFlag) && log == old(log)
    {
      if !joinable { return; }
      stopFlag := true;
      EndsSeen(c, next, rest);
      var ended := Run(next, rest);
      joinable := false;
      if sock >= 0 { sock := -1; }
    }

    method Emit(e: Event)
      modifies this`log
      ensures log == old(log) + [e]
    {
      log := log + [e];
    }

    /** `run`, from `start` on; `ended` is false while the loop is still going when the script
        stops. */
    method Run(start: real, steps: seq<Step>) returns (ended: bool)
      modifies this`log
      ensures var done := Log(c, start, steps);
        && log == old(log) + done && (ended <==> exists t <- steps :: LastTurn(t))
        && (forall p: nat | SetAt(done, p) :: SentFrom(done, p) <= 2)
        && Replies(done) <= Deliveries(done, Discovers(c)) && AllAnswered(c, done)
    {
      Promises(c, start, steps);
      hide Turn, NextAnnounce, LastTurn, SetAt, SentFrom, Replies, Deliveries, Discovers, AllAnswered;
      var next := start;
      var i := 0;
      ended := false;
      assert steps[0..] == steps;
      while i < |steps| && !ended
        invariant 0 <= i <= |steps|
        invariant old(log) + Log(c, start, steps) == if ended then log else log + Log(c, next, steps[i..])
        invariant ended ==> i > 0 && LastTurn(steps[i - 1])
        invariant !ended ==> forall k | 0 <= k < i :: !LastTurn(steps[k])
      {
        ghost var rest := Log(c, NextAnnounce(c, next, steps[i]), steps[i + 1..]);
        assert steps[i..][1..] == steps[i + 1..];
        Assoc(log, Turn(c, next, steps[i]), rest);
        ended, next := OneTurn(next, steps[i]);
        i := i + 1;
      }
      assert ended ==> steps[i - 1] in steps;
    }

    /** One turn of the `while`. */
    method OneTurn(next: real, t: Step) returns (ended: bool, next': real)
      modifies this`log
      ensures log == old(log) + Turn(c, next, t) && (ended <==> LastTurn(t))
      ensures !ended ==> next' == NextAnnounce(c, next, t)
    {
      hide CppAnswer, AnnounceText, Bottom, Answered;
      next' := next;
      Emit(Read(t.stopTop));
      if t.stopTop { return true, next'; }
      if t.inbound.Datagram? { Emit(Received(t.inbound.from, t.inbound.data)); }
      assert log == old(log) + ([Read(false)] + Arrived(t));
      Emit(Read(t.stopMid));
      if t.stopMid { return true, next'; }
      Answer(t);
      next' := Announcing(next, t);
      assert log == old(log) + Turn(c, next, t);
      return false, next';
    }

    method Answer(t: Step)
      modifies this`log
      ensures log == old(log) + Answered(c, t)
    {
      hide AnnounceText, CppAnswerTo;
      if t.inbound.Datagram? {
        var n := Min(|t.inbound.data|, MAX_DATAGRAM);
        var reply := Handle(t.inbound.data[..n], c.me, c.stod, c.glob, c.show);
        if reply.Some? && c.canSend { Emit(Event.Reply(t.at, t.inbound.from, reply.value)); }
      }
    }

    method Announcing(next: real, t: Step) returns (next': real)
      modifies this`log
      ensures log == old(log) + Bottom(c, next, t) && next' == NextAnnounce(c, next, t)
    {
      next' := next;
      if c.interval > 0 && c.canSend {
        if t.now >= next {
          var text := CppMessages.BuildAnnounce(c.me, None, c.show);
          Emit(Beacon(t.now, text));
          next' := t.now + (c.interval as real);
        }
      }
    }
  }
}
