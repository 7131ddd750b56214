/** Every run of the C++ loop is a trace of `Lifecycle`: each turn goes through its steps, saying
    the events of the log, and the owner sets the flag wherever the log lets it. */
module TurnPaths {
  import opened Bytes
  import opened ResponderLog
  import opened CppLoop
  import opened Lifecycle

  /** A step to `to`, which adds `said` to the log. */
  datatype Move = Move(said: seq<Event>, to: Sys)

  /** At most one event, of the kind `kind`. */
  predicate OneOf(said: seq<Event>, kind: Event -> bool) { said == [] || (|said| == 1 && kind(said[0])) }

  /** The owner sets the flag, or the loop takes its next step and says what that step says. */
  predicate Does(s: Sys, m: Move) {
    || (SetFlag(s, m.to) && m.said == [])
    || (LookTop(s, m.to) && m.said == [Read(s.flag)])
    || (Receive(s, m.to) && OneOf(m.said, (e: Event) => e.Received?))
    || (LookMiddle(s, m.to) && m.said == [Read(s.flag)])
    || (&& ReplyOrNot(s, m.to) && OneOf(m.said, (e: Event) => e.Reply?) && m.to.sent == s.sent + |m.said|)
    || (&& AnnounceOrNot(s, m.to) && OneOf(m.said, (e: Event) => e.Beacon?) && m.to.sent == s.sent + |m.said|)
  }

  predicate Path(s: Sys, moves: seq<Move>)
    decreases |moves|
  {
    moves == [] || (Does(s, moves[0]) && Path(moves[0].to, moves[1..]))
  }

  function End(s: Sys, moves: seq<Move>): Sys
    decreases |moves|
  {
    if moves == [] then s else End(moves[0].to, moves[1..])
  }

  function Said(moves: seq<Move>): seq<Event> { if moves == [] then [] else moves[0].said + Said(moves[1..]) }

  lemma {:induction false} Joined(s: Sys, a: seq<Move>, b: seq<Move>)
    requires Path(s, a) && Path(End(s, a), b)
    ensures Path(s, a + b) && End(s, a + b) == End(End(s, a), b) && Said(a + b) == Said(a) + Said(b)
    decreases |a|
  {
    hide Does;
    ConsConcat(a, b);
    if a != [] {
      Joined(a[0].to, a[1..], b);
      Assoc(a[0].said, Said(a[1..]), Said(b));
    }
  }

  // ---- one step ----

  function Less(p: nat, n: nat): nat { if p <= n then 0 else p - n }

  /** The flag is to be set just before the `p`-th event still to come. */
  predicate Ready(s: Sys, p: nat) {
    if s.flag then p == 0 else s.owner.Idle? && s.joinable && s.late == 0
  }

  function Flagged(s: Sys, p: nat): Sys {
    if p == 0 && !s.flag then s.(flag := true, owner := Joining, late := 0) else s
  }

  /** The owner's move when its time has come. */
  function Owners(s: Sys, p: nat): seq<Move> { if p == 0 && !s.flag then [Move([], Flagged(s, p))] else [] }

  predicate Follows(s: Sys, p: nat, moves: seq<Move>, said: seq<Event>) {
    && Path(s, moves) && Said(moves) == said && Ready(End(s, moves), Less(p, |said|))
    && End(s, moves).sent == s.sent + SentFrom(said, 0) && End(s, moves).late == s.late + SentFrom(said, p)
  }

  /** One step of the loop, with the owner's before it when its time has come. */
  lemma OneStep(s: Sys, p: nat, m: Move)
    requires Ready(s, p) && Does(Flagged(s, p), m) && !SetFlag(Flagged(s, p), m.to)
    ensures Follows(s, p, Owners(s, p) + [m], m.said) && End(s, Owners(s, p) + [m]) == m.to
  {
    var s' := Flagged(s, p);
    Effect(s', p, m);
    hide Does, Path, End, Said, SentFrom, Ready;
    OneMove(s', m);
    OwnersMove(s, p);
    Joined(s, Owners(s, p), [m]);
    assert [] + m.said == m.said;
  }

  lemma OwnersMove(s: Sys, p: nat)
    requires Ready(s, p)
    ensures Path(s, Owners(s, p)) && End(s, Owners(s, p)) == Flagged(s, p) && Said(Owners(s, p)) == []
    ensures Flagged(s, p).sent == s.sent && Flagged(s, p).late == s.late
  {
    if p == 0 && !s.flag {
      assert SetFlag(s, Flagged(s, p));
      OneMove(s, Move([], Flagged(s, p)));
    }
  }

  lemma OneMove(s: Sys, m: Move)
    requires Does(s, m)
    ensures Path(s, [m]) && End(s, [m]) == m.to && Said([m]) == m.said
  {
    assert [m][1..] == [] && m.said + [] == m.said;
  }

  lemma Effect(s: Sys, p: nat, m: Move)
    requires Does(s, m) && !SetFlag(s, m.to) && Ready(s, p) && (p == 0 ==> s.flag)
    ensures Ready(m.to, Less(p, |m.said|))
    ensures m.to.sent == s.sent + SentFrom(m.said, 0) && m.to.late == s.late + SentFrom(m.said, p)
  {
    if m.said != [] { assert m.said[1..] == []; }
  }

  lemma {:induction false} SentConcat(a: seq<Event>, b: seq<Event>, p: nat)
    ensures SentFrom(a + b, p) == SentFrom(a, p) + SentFrom(b, Less(p, |a|))
  {
    ConsConcat(a, b);
    if a != [] { SentConcat(a[1..], b, if p == 0 then 0 else p - 1); }
  }

  lemma FollowOn(s: Sys, p: nat, a: seq<Move>, x: seq<Event>, b: seq<Move>, y: seq<Event>)
    requires Follows(s, p, a, x) && Follows(End(s, a), Less(p, |x|), b, y)
    ensures Follows(s, p, a + b, x + y) && End(s, a + b) == End(End(s, a), b)
  {
    hide Path, Said, Ready, SentFrom;
    Joined(s, a, b);
    SentConcat(x, y, 0);
    SentConcat(x, y, p);
  }

  // ---- one turn ----

  /** The loop up to its second look at the flag. */
  lemma FirstHalf(t: Step, s: Sys, p: nat) returns (moves: seq<Move>)
    requires s.loop.AtTop? && Ready(s, p) && !t.stopTop && p > 0
    ensures Follows(s, p, moves, [Read(false)] + Arrived(t)) && End(s, moves).loop.AtMiddle?
  {
    var m := Move([Read(false)], s.(loop := Receiving));
    OneStep(s, p, m);
    var n := Move(Arrived(t), Flagged(m.to, p - 1).(loop := AtMiddle));
    OneStep(m.to, p - 1, n);
    hide Path, Said, Does, Follows;
    FollowOn(s, p, Owners(s, p) + [m], m.said, Owners(m.to, p - 1) + [n], n.said);
    moves := Owners(s, p) + [m] + (Owners(m.to, p - 1) + [n]);
  }

  function After(s: Sys, said: seq<Event>, l: Lifecycle.Loop): Sys {
    (if said == [] then s else Sent(s)).(loop := l)
  }

  /** The loop from its second look, which finds the flag clear. */
  lemma SecondHalf(c: Config, next: real, t: Step, s: Sys, p: nat) returns (moves: seq<Move>)
    requires s.loop.AtMiddle? && Ready(s, p) && !t.stopMid && p > 0
    ensures Follows(s, p, moves, [Read(false)] + Answered(c, t) + Bottom(c, next, t)) && End(s, moves).loop.AtTop?
  {
    hide CppMessages.CppAnswer, CppMessages.AnnounceText;
    var x, y := Answered(c, t), Bottom(c, next, t);
    var m := Move([Read(false)], s.(loop := Replying));
    OneStep(s, p, m);
    var n := Move(x, After(Flagged(m.to, p - 1), x, Announcing));
    OneStep(m.to, p - 1, n);
    var q := Less(p - 1, |x|);
    var o := Move(y, After(Flagged(n.to, q), y, AtTop));
    OneStep(n.to, q, o);
    hide Path, Said, Does, Follows, Answered, Bottom;
    var a := Owners(s, p) + [m];
    FollowOn(s, p, a, m.said, Owners(m.to, p - 1) + [n], x);
    FollowOn(s, p, a + (Owners(m.to, p - 1) + [n]), m.said + x, Owners(n.to, q) + [o], y);
    moves := a + (Owners(m.to, p - 1) + [n]) + (Owners(n.to, q) + [o]);
  }

  /** A look that finds the flag set ends the loop. */
  lemma LastLook(s: Sys) returns (moves: seq<Move>)
    requires (s.loop.AtTop? || s.loop.AtMiddle?) && Ready(s, 0)
    ensures Follows(s, 0, moves, [Read(true)]) && End(s, moves).loop.Done?
  {
    var m := Move([Read(true)], Flagged(s, 0).(loop := Done));
    OneStep(s, 0, m);
    moves := Owners(s, 0) + [m];
  }

  /** The turn of a loop whose flag is set at `p` is a path through `Lifecycle`'s steps. */
  lemma TurnIsPath(c: Config, next: real, t: Step, s: Sys, p: nat) returns (moves: seq<Move>)
    requires s.loop.AtTop? && Ready(s, p) && SetAt(Turn(c, next, t), p)
    ensures Follows(s, p, moves, Turn(c, next, t))
    ensures if LastTurn(t) then End(s, moves).loop.Done? else End(s, moves).loop.AtTop?
  {
    var turn := Turn(c, next, t);
    assert turn[0] == Read(t.stopTop);
    if t.stopTop {
      moves := LastLook(s);
    } else {
      var k := 1 + |Arrived(t)|;
      assert turn[k] == Read(t.stopMid);
      var a := FirstHalf(t, s, p);
      var said := [Read(false)] + Arrived(t);
      var b := if t.stopMid then [Read(true)] else [Read(false)] + Answered(c, t) + Bottom(c, next, t);
      assert turn == said + b;
      hide Follows, Turn, Arrived, Answered, Bottom;
      var rest: seq<Move>;
      if t.stopMid { rest := LastLook(End(s, a)); } else { rest := SecondHalf(c, next, t, End(s, a), Less(p, k)); }
      FollowOn(s, p, a, said, rest, b);
      moves := a + rest;
    }
  }

  // ---- a run ----

  lemma SetAtParts(a: seq<Event>, b: seq<Event>, p: nat)
    requires SetAt(a + b, p)
    ensures SetAt(a, p) && SetAt(b, Less(p, |a|))
  {
    assert forall i | 0 <= i < |a| :: (a + b)[i] == a[i];
    assert forall i | 0 <= i < |b| :: (a + b)[|a| + i] == b[i];
  }

  /** The log of a whole run, from the top of the loop. */
  lemma {:induction false} LogIsPath(c: Config, next: real, steps: seq<Step>, s: Sys, p: nat) returns (moves: seq<Move>)
    requires s.loop.AtTop? && Ready(s, p) && SetAt(Log(c, next, steps), p)
    ensures Follows(s, p, moves, Log(c, next, steps))
    ensures if exists t <- steps :: LastTurn(t) then End(s, moves).loop.Done? else End(s, moves).loop.AtTop?
    decreases |steps|
  {
    if steps == [] {
      moves := [];
    } else {
      var t, turn := steps[0], Turn(c, next, steps[0]);
      hide Follows, Turn, SetAt, Ready;
      if LastTurn(t) {
        moves := TurnIsPath(c, next, t, s, p);
      } else {
        var next' := NextAnnounce(c, next, t);
        SetAtParts(turn, Log(c, next', steps[1..]), p);
        var a := TurnIsPath(c, next, t, s, p);
        Onwards(s, p, a, turn);
        var b := LogIsPath(c, next', steps[1..], End(s, a), Less(p, |turn|));
        FollowOn(s, p, a, turn, b, Log(c, next', steps[1..]));
        assert steps == [t] + steps[1..];
        moves := a + b;
      }
    }
  }

  lemma Onwards(s: Sys, p: nat, moves: seq<Move>, said: seq<Event>)
    requires Follows(s, p, moves, said)
    ensures Ready(End(s, moves), Less(p, |said|))
  {
  }

  /** The states a path goes through. */
  function States(s: Sys, moves: seq<Move>): (trace: seq<Sys>)
    ensures trace != [] && trace[0] == s
    decreases |moves|
  {
    if moves == [] then [s] else [s] + States(moves[0].to, moves[1..])
  }

  lemma {:induction false} StatesStep(s: Sys, moves: seq<Move>, i: nat)
    requires Path(s, moves) && i + 1 < |States(s, moves)|
    ensures Next(States(s, moves)[i], States(s, moves)[i + 1])
    decreases |moves|
  {
    if i > 0 { StatesStep(moves[0].to, moves[1..], i - 1); }
  }

  lemma {:induction false} LastState(s: Sys, moves: seq<Move>)
    ensures States(s, moves)[|States(s, moves)| - 1] == End(s, moves)
    decreases |moves|
  {
    if moves != [] { LastState(moves[0].to, moves[1..]); }
  }

  function Started(fd: nat): Sys { UNSTARTED.(sock := fd, open := 1, joinable := true, loop := AtTop) }

  lemma Starts(fd: nat)
    ensures Init(UNSTARTED) && Next(UNSTARTED, Started(fd))
  {
    assert StartOk(UNSTARTED, Started(fd));
  }

  /** Every run of the loop, its flag set anywhere, is a trace of `Lifecycle` that says the events
      of its log, counts the datagrams it sends and those after the flag, and is over iff a turn
      saw the flag set. */
  lemma RunIsTrace(c: Config, start: real, steps: seq<Step>, fd: nat, p: nat)
    returns (trace: seq<Sys>, moves: seq<Move>)
    requires SetAt(Log(c, start, steps), p)
    ensures Run(trace) && trace == [UNSTARTED] + States(Started(fd), moves)
    ensures Path(Started(fd), moves) && Said(moves) == Log(c, start, steps)
    ensures var end, log := trace[|trace| - 1], Log(c, start, steps);
      && end.sent == SentFrom(log, 0) && end.late == SentFrom(log, p)
      && (end.loop.Done? <==> exists t <- steps :: LastTurn(t))
  {
    var s := Started(fd);
    hide Log, Turn, SetAt, Next, Said, Path, SentFrom, LastTurn;
    moves := LogIsPath(c, start, steps, s, p);
    LastState(s, moves);
    trace := [UNSTARTED] + States(s, moves);
    assert Next(UNSTARTED, s) by { Starts(fd); }
    forall i: nat | i + 1 < |trace| ensures Next(trace[i], trace[i + 1]) {
      if i > 0 { StatesStep(s, moves, i - 1); }
    }
  }
}
