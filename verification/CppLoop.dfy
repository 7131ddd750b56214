/** `Responder.cpp`: what the loop of the C++ responder does, as a log of its run. */
module CppLoop {
  import opened Bytes
  import opened CppJson
  import opened CppMessages
  import opened Protocol
  import opened ResponderLog

  /** One turn of the loop: what the flag reads, the socket and the clock give. */
  datatype Step = Step(stopTop: bool, inbound: Inbound, stopMid: bool, at: real, now: real)

  /** What stays the same while the loop runs; `canSend` is whether the sending socket opened. */
  datatype Config = Config(me: Self, interval: int, canSend: bool, stod: Stod, glob: Glob, show: Show)

  function Arrived(t: Step): seq<Event> {
    match t.inbound case Nothing => [] case Datagram(from, data) => [Received(from, data)]
  }

  /** What the receive branch sends. */
  function Answered(c: Config, t: Step): seq<Event> {
    match t.inbound
    case Nothing => []
    case Datagram(from, data) =>
      match CppAnswer(data, c.me.opt, c.stod, c.glob)
      case Silent => []
      case Reply(qid) => if c.canSend then [Event.Reply(t.at, from, AnnounceText(c.me, qid, c.show))] else []
  }

  predicate BeaconDue(c: Config, next: real, t: Step) { c.interval > 0 && c.canSend && t.now >= next }

  function Bottom(c: Config, next: real, t: Step): seq<Event> {
    if BeaconDue(c, next, t) then [Beacon(t.now, AnnounceText(c.me, None, c.show))] else []
  }

  function NextAnnounce(c: Config, next: real, t: Step): real {
    if BeaconDue(c, next, t) then t.now + (c.interval as real) else next
  }

  /** The events of one turn. */
  function Turn(c: Config, next: real, t: Step): seq<Event> {
    if t.stopTop then [Read(true)]
    else [Read(false)] + Arrived(t) +
         if t.stopMid then [Read(true)] else [Read(false)] + Answered(c, t) + Bottom(c, next, t)
  }

  predicate LastTurn(t: Step) { t.stopTop || t.stopMid }

  /** The log of a run, as far as the script goes. */
  function Log(c: Config, next: real, steps: seq<Step>): seq<Event>
    decreases |steps|
  {
    if steps == [] then []
    else if LastTurn(steps[0]) then Turn(c, next, steps[0])
    else Turn(c, next, steps[0]) + Log(c, NextAnnounce(c, next, steps[0]), steps[1..])
  }
}
