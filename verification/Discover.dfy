/** `discover`, the loop itself, proved against `Client.Loop` and what `ClientTiming` and
    `ClientResult` prove of it. */
module Discover {
  import opened Bytes
  import opened PyJson
  import opened Protocol
  import opened Ranking
  import opened Client
  import opened ClientTiming
  import opened ClientResult

  /** What holds of every call, whatever arrives. */
  lemma Promises(c: Call, ticks: seq<Tick>, lib: Lib)
    ensures var end := Loop(c, Start(c), ticks, lib);
      && |end.sent| <= c.Sends() && Spaced(end.sent, c.Gap())
      && (forall i | 0 <= i < |end.sent| :: end.sent[i] < c.Deadline())
      && (Monotone(ticks, c.start) ==> GoodWaits(c, end.waits))
      && Ordered(Sorted(Values(end.found)))
    ensures LatestOfEach(Sorted(Values(Loop(c, Start(c), ticks, lib).found)), Arrivals(c, ticks, lib))
    ensures Spaced([], c.Gap()) && GoodWaits(c, []) && Ordered([])
  {
    Transmissions(c, Start(c), ticks, lib);
    if Monotone(ticks, c.start) { CallTiming(c, ticks, lib); }
    CallResult(c, ticks, lib, []);
    hide Loop, Sorted, Values, Arrivals, LastOf, IdOf;
    forall m: Dict ensures multiset(Sorted(Values(Loop(c, Start(c), ticks, lib).found)))[m] ==
                           (if LastOf(Arrivals(c, ticks, lib), IdOf(m)) == Some(PDict(m)) then 1 else 0) {
      CallResult(c, ticks, lib, m);
    }
  }

  /** `discover`.  `None` stands for the ProtocolError of `build_query` or `encode`.  The list
      holds, in order, the last record accepted for each id and nothing else.  The clock reaches
      the deadline in every long enough script of a working clock: `ClientTiming.LoopEnds`. */
  method Discover(c: Call, ticks: seq<Tick>, lib: Lib)
    returns (payload: Option<Bytes>, sent: seq<real>, waits: seq<real>, records: seq<Dict>)
    requires Reaches(ticks, c.Deadline())
    ensures var query := BuildQuery(c.filter, Some(c.qid), c.qid);
      payload == if query.Some? then Encoded(query.value) else None
    ensures payload.None? ==> sent == [] && waits == [] && records == []
    ensures payload.Some? ==>
      var end := Loop(c, Start(c), ticks, lib);
      sent == end.sent && waits == end.waits && records == Sorted(Values(end.found))
    ensures |sent| <= c.Sends() && Spaced(sent, c.Gap()) && forall i | 0 <= i < |sent| :: sent[i] < c.Deadline()
    ensures Monotone(ticks, c.start) ==> GoodWaits(c, waits)
    ensures Ordered(records)
    ensures payload.Some? ==> LatestOfEach(records, Arrivals(c, ticks, lib))
  {
    Promises(c, ticks, lib);
    hide Accepted, SetItem, Sorted, Values, Loop, Encoded, BuildQuery, Reaches, Spaced, GoodWaits, Ordered,
         LatestOfEach, Arrivals, Monotone;
    payload, sent, waits, records := None, [], [], [];
    var query := BuildQuery(c.filter, Some(c.qid), c.qid);
    if query.None? { return; }
    payload := Encoded(query.value);
    if payload.None? { return; }
    var found: Dict := [];
    var deadline := c.start + c.timeout;
    var resendAt := 0.0;
    var sendsLeft := Max(1, c.retries);
    var i := 0;
    assert ticks[0..] == ticks;
    while true
      invariant 0 <= i <= |ticks| && Reaches(ticks[i..], c.Deadline())
      invariant Loop(c, Start(c), ticks, lib) ==
                Loop(c, State(resendAt, sendsLeft, found, sent, waits), ticks[i..], lib)
      decreases |ticks| - i
    {
      AnyLeft(ticks[i..], c.Deadline());
      LoopStep(c, State(resendAt, sendsLeft, found, sent, waits), ticks, i, lib);
      var now := ticks[i].now;
      if now >= deadline { break; }
      if sendsLeft > 0 && now >= resendAt {
        sent := sent + [now];
        sendsLeft := sendsLeft - 1;
        resendAt := now + c.timeout / (Max(1, c.retries) as real);
      }
      var target := if sendsLeft != 0 then resendAt else deadline;
      waits := waits + [(if target < deadline then target else deadline) - now];
      var wake := ticks[i].wake;
      i := i + 1;
      if wake.TimedOut? { continue; }
      var entry := Accepted(c, wake.datagram, lib);
      if entry.None? { continue; }
      found := SetItem(found, entry.value.key, entry.value.val);
    }
    records := Sorted(Values(found));
  }
}
