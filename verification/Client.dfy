/** `client.py`: the timed send/receive loop of `discover`.  The clock and the network are a
    script, one `Tick` a turn of the loop; time is real. */
module Client {
  import opened Bytes
  import opened PyJson
  import opened Protocol
  import opened Utf8
  import opened Ranking

  /** How `recvfrom` came back. */
  datatype Wake = TimedOut | Got(datagram: Bytes)

  /** One turn: the clock when it starts, and how its wait ends. */
  datatype Tick = Tick(now: real, wake: Wake)

  /** The arguments of one call, with the query id it drew and the time it began. */
  datatype Call = Call(filter: Option<Dict>, timeout: real, retries: int, qid: Str, start: real) {
    /** `max(1, retries)` */
    function Sends(): (n: int) ensures n >= 1 { Max(1, retries) }

    function Deadline(): real { start + timeout }

    function Gap(): real { timeout / (Sends() as real) }
  }

  /** The loop's variables, and what it did: when it transmitted and how long it waited. */
  datatype State = State(resendAt: real, sendsLeft: int, found: Dict, sent: seq<real>, waits: seq<real>)

  function Start(c: Call): State { State(0.0, c.Sends(), [], [], []) }

  /** The record a datagram contributes, with its id; None when the loop drops it. */
  function Accepted(c: Call, datagram: Bytes, lib: Lib): Option<Entry> {
    match Decoded(datagram[..Min(|datagram|, MAX_DATAGRAM + 1)])
    case None => None
    case Some(msg) =>
      if Get(msg, K_TYPE) != Some(PStr(ANNOUNCE)) then None
      else if Get(msg, K_QID).Some? && Get(msg, K_QID) != Some(PStr(c.qid)) then None
      else if !MatchesFilter(msg, FilterValue(c.filter), lib) then None
      else Some(Entry(IdOf(msg), PDict(msg)))
  }

  function FilterValue(filter: Option<Dict>): PyVal {
    if filter.Some? then PDict(filter.value) else PNone
  }

  function IdOf(msg: Dict): Str {
    match Get(msg, K_ID) case Some(PStr(id)) => id case _ => []
  }

  /** A transmission is due. */
  predicate Due(s: State, now: real) { s.sendsLeft > 0 && now >= s.resendAt }

  function AfterSend(c: Call, s: State, now: real): State {
    if Due(s, now) then s.(sendsLeft := s.sendsLeft - 1, resendAt := now + c.Gap(), sent := s.sent + [now]) else s
  }

  /** `min(deadline, resend_at if sends_left else deadline)` */
  function Until(c: Call, s: State): real {
    if s.sendsLeft != 0 && s.resendAt < c.Deadline() then s.resendAt else c.Deadline()
  }

  /** One turn that starts before the deadline. */
  function Turn(c: Call, s: State, t: Tick, lib: Lib): State {
    var s1 := AfterSend(c, s, t.now);
    var s2 := s1.(waits := s1.waits + [Until(c, s1) - t.now]);
    match t.wake
    case TimedOut => s2
    case Got(datagram) =>
      match Accepted(c, datagram, lib)
      case None => s2
      case Some(e) => s2.(found := SetItem(s2.found, e.key, e.val))
  }

  /** The loop, until the script's clock reaches the deadline. */
  function Loop(c: Call, s: State, ticks: seq<Tick>, lib: Lib): State
    decreases |ticks|
  {
    if ticks == [] || ticks[0].now >= c.Deadline() then s
    else Loop(c, Turn(c, s, ticks[0], lib), ticks[1..], lib)
  }

  /** The turns the loop takes. */
  function Turns(c: Call, ticks: seq<Tick>): (n: nat)
    ensures n <= |ticks|
  {
    if ticks == [] || ticks[0].now >= c.Deadline() then 0 else 1 + Turns(c, ticks[1..])
  }

  predicate Reaches(ticks: seq<Tick>, deadline: real) { exists k | 0 <= k < |ticks| :: ticks[k].now >= deadline }

  function Values(d: Dict): (ms: seq<Dict>)
    ensures |ms| <= |d|
  {
    if d == [] then []
    else (match d[0].val case PDict(msg) => [msg] case _ => []) + Values(d[1..])
  }

  lemma AnyLeft(ticks: seq<Tick>, deadline: real)
    requires Reaches(ticks, deadline)
    ensures ticks != []
  {
  }

  lemma LoopStep(c: Call, s: State, ticks: seq<Tick>, i: nat, lib: Lib)
    requires i < |ticks| && Reaches(ticks[i..], c.Deadline())
    ensures if ticks[i].now >= c.Deadline() then Loop(c, s, ticks[i..], lib) == s
            else Loop(c, s, ticks[i..], lib) == Loop(c, Turn(c, s, ticks[i], lib), ticks[i + 1..], lib)
                 && Reaches(ticks[i + 1..], c.Deadline())
  {
    hide Turn;
    assert ticks[i..][1..] == ticks[i + 1..];
    if ticks[i].now < c.Deadline() {
      var k :| 0 <= k < |ticks[i..]| && ticks[i..][k].now >= c.Deadline();
      assert ticks[i + 1..][k - 1] == ticks[i..][k];
    }
  }
}
