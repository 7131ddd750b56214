/** `responder.py`: what the loop of the Python responder does, as a log of its run. */
module PyLoop {
  import opened Bytes
  import opened PyJson
  import opened Protocol
  import opened ProtocolProofs
  import opened ResponderLog
  import opened Utf8

  /** One turn of the loop: what the flag reads, the clock and the socket give, and the process as
      each of the turn's three calls of `_announce` sees it; the time it stamps moves on. */
  datatype Step = Step(stopTop: bool, now: real, after: real, inbound: Inbound, stopMid: bool, at: real,
                       beaconAs: Process, filterAs: Process, replyAs: Process)

  /** What the constructor stores. */
  datatype Config = Config(service: Service, id: Str, interval: real, lib: Lib)

  /** `_announce` */
  function Announce(c: Config, qid: Option<Str>, p: Process): Dict {
    BuildAnnounce(c.service, c.id, qid, None, p)
  }

  predicate BeaconDue(next: Option<real>, now: real) { next.Some? && now >= next.value }

  function QidStr(qid: Option<PyVal>): Option<Str> {
    match qid case Some(PStr(s)) => Some(s) case _ => None
  }

  /** The reply branch: what follows a datagram once the flag is seen clear. */
  function Answered(c: Config, from: Address, data: Bytes, t: Step): seq<Event> {
    match PyAnswer(data, Announce(c, None, t.filterAs), c.lib)
    case Silent => []
    case Reply(qid) =>
      match Encoded(Announce(c, QidStr(qid), t.replyAs))
      case None => [Crash]
      case Some(reply) => [Event.Reply(t.at, from, reply)]
  }

  /** What one turn does from its `recvfrom` on. */
  function Body(c: Config, t: Step): seq<Event> {
    match t.inbound
    case Nothing => []
    case Datagram(from, data) =>
      [Received(from, data), Read(t.stopMid)] + if t.stopMid then [] else Answered(c, from, data, t)
  }

  /** The beacon at the top of a turn. */
  function Top(c: Config, next: Option<real>, t: Step): seq<Event> {
    if !BeaconDue(next, t.now) then []
    else
      match Encoded(Announce(c, None, t.beaconAs))
      case None => [Crash]
      case Some(data) => [Beacon(t.now, data)]
  }

  function NextAnnounce(c: Config, next: Option<real>, t: Step): Option<real> {
    if BeaconDue(next, t.now) then Some(t.after + c.interval) else next
  }

  /** The loop ends after this event. */
  predicate Ends(log: seq<Event>) { log != [] && (log[|log| - 1] == Read(true) || log[|log| - 1] == Crash) }

  /** The events of one turn. */
  function Turn(c: Config, next: Option<real>, t: Step): seq<Event> {
    if t.stopTop then [Read(true)]
    else if Ends(Top(c, next, t)) then [Read(false)] + Top(c, next, t)
    else [Read(false)] + Top(c, next, t) + Body(c, t)
  }

  /** The log of a run, as far as the script goes. */
  function Log(c: Config, next: Option<real>, steps: seq<Step>): seq<Event>
    decreases |steps|
  {
    if steps == [] then []
    else
      var turn := Turn(c, next, steps[0]);
      if Ends(turn) then turn else turn + Log(c, NextAnnounce(c, next, steps[0]), steps[1..])
  }

  function FirstAnnounce(c: Config, start: real): Option<real> {
    if c.interval > 0.0 then Some(start + c.interval) else None
  }

  lemma EndsConcat(a: seq<Event>, b: seq<Event>)
    ensures b != [] ==> (Ends(a + b) <==> Ends(b))
    ensures b == [] ==> a + b == a && !Ends(b)
  {
    if b != [] { assert (a + b)[|a + b| - 1] == b[|b| - 1]; }
  }

  lemma NotEnded()
    ensures !Ends([])
  {
  }
}
