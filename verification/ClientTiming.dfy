/** When `discover` transmits, how long it waits, and how many turns it takes. */
module ClientTiming {
  import opened Bytes
  import opened PyJson
  import opened Protocol
  import opened Client

  /** The clock never runs backwards. */
  predicate Monotone(ticks: seq<Tick>, from: real) {
    ticks == [] || (ticks[0].now >= from && Monotone(ticks[1..], ticks[0].now))
  }

  // ---- transmissions ----

  predicate Spaced(sent: seq<real>, gap: real) { forall i: nat | i + 1 < |sent| :: sent[i + 1] - sent[i] >= gap }

  predicate Sending(c: Call, s: State) {
    && 0 <= s.sendsLeft && |s.sent| + s.sendsLeft == c.Sends()
    && (s.sent != [] ==> s.resendAt == s.sent[|s.sent| - 1] + c.Gap())
    && Spaced(s.sent, c.Gap()) && forall i | 0 <= i < |s.sent| :: s.sent[i] < c.Deadline()
  }

  lemma SendingTurn(c: Call, s: State, t: Tick, lib: Lib)
    requires Sending(c, s) && t.now < c.Deadline()
    ensures Sending(c, Turn(c, s, t, lib))
  {
    hide Accepted, SetItem;
  }

  /** At most `max(1, retries)` transmissions, each before the deadline, consecutive ones at
      least `timeout / max(1, retries)` apart. */
  lemma {:induction false} Transmissions(c: Call, s: State, ticks: seq<Tick>, lib: Lib)
    requires Sending(c, s)
    ensures var sent := Loop(c, s, ticks, lib).sent;
      |sent| <= c.Sends() && Spaced(sent, c.Gap()) && forall i | 0 <= i < |sent| :: sent[i] < c.Deadline()
    ensures Sending(c, Loop(c, s, ticks, lib))
    decreases |ticks|
  {
    hide Turn;
    if ticks != [] && ticks[0].now < c.Deadline() {
      SendingTurn(c, s, ticks[0], lib);
      Transmissions(c, Turn(c, s, ticks[0], lib), ticks[1..], lib);
    }
  }

  // ---- waits ----

  predicate GoodWaits(c: Call, waits: seq<real>) { forall i | 0 <= i < |waits| :: 0.0 < waits[i] <= c.timeout }

  lemma WaitTurn(c: Call, s: State, t: Tick, lib: Lib)
    requires s.sendsLeft >= 0 && GoodWaits(c, s.waits) && c.start <= t.now < c.Deadline()
    ensures var s' := Turn(c, s, t, lib); s'.sendsLeft >= 0 && GoodWaits(c, s'.waits)
  {
    hide Accepted, SetItem;
    assert c.Gap() > 0.0;
  }

  /** Every wait is positive and no longer than the timeout. */
  lemma {:induction false} Waits(c: Call, s: State, ticks: seq<Tick>, from: real, lib: Lib)
    requires Monotone(ticks, from) && c.start <= from && s.sendsLeft >= 0 && GoodWaits(c, s.waits)
    ensures GoodWaits(c, Loop(c, s, ticks, lib).waits)
    decreases |ticks|
  {
    hide Turn, GoodWaits;
    if ticks != [] && ticks[0].now < c.Deadline() {
      WaitTurn(c, s, ticks[0], lib);
      Waits(c, Turn(c, s, ticks[0], lib), ticks[1..], ticks[0].now, lib);
    }
  }

  // ---- every transmission happens ----

  /** Each check of the clock comes at most `d` after the wait before it should have ended;
      the first comes by `limit`. */
  predicate Punctual(c: Call, s: State, ticks: seq<Tick>, lib: Lib, d: real, limit: real)
    decreases |ticks|
  {
    ticks == [] ||
    (ticks[0].now <= limit &&
     (ticks[0].now < c.Deadline() ==>
        Punctual(c, Turn(c, s, ticks[0], lib), ticks[1..], lib, d, Until(c, AfterSend(c, s, ticks[0].now)) + d)))
  }

  /** The latest the `j`-th transmission can happen. */
  function Latest(c: Call, d: real, j: int): real { c.start + (j as real) * c.Gap() + ((j + 1) as real) * d }

  lemma LatestNext(c: Call, d: real, j: int)
    ensures Latest(c, d, j + 1) == Latest(c, d, j) + c.Gap() + d
  {
  }

  lemma Cancel(n: real, a: real, b: real)
    requires n > 0.0 && n * a < n * b
    ensures a < b
  {
    assert a >= b ==> n * (a - b) >= 0.0;
  }

  lemma Grow(a: real, b: real, x: real)
    requires a <= b && x >= 0.0
    ensures a * x <= b * x
  {
    assert (b - a) * x >= 0.0;
  }

  lemma Shares(timeout: real, n: real)
    requires n > 0.0
    ensures n * (timeout / n) == timeout
  {
  }

  lemma Square(s: int)
    ensures (s * s) as real == (s as real) * (s as real)
  {
  }

  /** With `n` shares of length `g`, `k` shares and `k + 1` delays leave time when `n` delays are
      shorter than a share. */
  lemma Room(n: real, g: real, d: real, k: real)
    requires 0.0 <= k <= n - 1.0 && d >= 0.0 && n * d < g
    ensures k * g + (k + 1.0) * d < n * g
  {
    assert g >= 0.0 by { Grow(0.0, n, d); }
    Grow(k, n - 1.0, g);
    Grow(k + 1.0, n, d);
    assert (n - 1.0) * g == n * g - g;
  }

  lemma LatestInTime(c: Call, d: real, j: int)
    requires d >= 0.0 && 0 <= j < c.Sends() && ((c.Sends() * c.Sends()) as real) * d < c.timeout
    ensures Latest(c, d, j) < c.Deadline()
  {
    var n, g, k := c.Sends() as real, c.Gap(), j as real;
    Shares(c.timeout, n);
    Square(c.Sends());
    Associate(n, d);
    Cancel(n, n * d, g);
    assert k <= n - 1.0 && (j + 1) as real == k + 1.0;
    Room(n, g, d, k);
  }

  lemma Associate(n: real, d: real)
    ensures (n * n) * d == n * (n * d)
  {
  }

  /** What lateness leaves room for while transmissions remain. */
  predicate OnSchedule(c: Call, s: State, d: real, limit: real) {
    var j := c.Sends() - s.sendsLeft;
    s.sendsLeft > 0 ==>
      limit <= Latest(c, d, j) && (if j == 0 then s.resendAt == 0.0 else s.resendAt <= Latest(c, d, j) - d)
  }

  lemma ScheduleTurn(c: Call, s: State, t: Tick, lib: Lib, d: real, limit: real)
    requires d >= 0.0 && 0.0 <= t.now <= limit && Sending(c, s) && OnSchedule(c, s, d, limit)
    ensures OnSchedule(c, Turn(c, s, t, lib), d, Until(c, AfterSend(c, s, t.now)) + d)
  {
    hide Accepted, SetItem, Latest, Spaced;
    LatestNext(c, d, c.Sends() - s.sendsLeft);
  }

  /** If every check of the clock comes at most `d` late and `S * S * d < timeout`, where `S`
      is `max(1, retries)`, then all `S` transmissions happen before the deadline. */
  lemma {:induction false} EveryTransmission(c: Call, s: State, ticks: seq<Tick>, from: real, lib: Lib, d: real,
                                             limit: real)
    requires d >= 0.0 && ((c.Sends() * c.Sends()) as real) * d < c.timeout
    requires 0.0 <= from && Monotone(ticks, from) && Reaches(ticks, c.Deadline())
    requires Sending(c, s) && OnSchedule(c, s, d, limit) && Punctual(c, s, ticks, lib, d, limit)
    ensures |Loop(c, s, ticks, lib).sent| == c.Sends()
    decreases |ticks|
  {
    hide Turn, OnSchedule, Sending;
    AnyLeft(ticks, c.Deadline());
    LoopStep(c, s, ticks, 0, lib);
    assert ticks[0..] == ticks;
    if ticks[0].now < c.Deadline() {
      SendingTurn(c, s, ticks[0], lib);
      ScheduleTurn(c, s, ticks[0], lib, d, limit);
      EveryTransmission(c, Turn(c, s, ticks[0], lib), ticks[1..], ticks[0].now, lib, d,
                        Until(c, AfterSend(c, s, ticks[0].now)) + d);
    } else {
      NothingLeft(c, s, ticks[0].now, d, limit);
    }
  }

  lemma NothingLeft(c: Call, s: State, now: real, d: real, limit: real)
    requires d >= 0.0 && ((c.Sends() * c.Sends()) as real) * d < c.timeout
    requires Sending(c, s) && OnSchedule(c, s, d, limit) && c.Deadline() <= now <= limit
    ensures |s.sent| == c.Sends()
  {
    if s.sendsLeft > 0 { LatestInTime(c, d, c.Sends() - s.sendsLeft); }
  }

  // ---- turns ----

  /** A wait that times out lasts at least as long as asked. */
  predicate Patient(c: Call, s: State, ticks: seq<Tick>, lib: Lib)
    decreases |ticks|
  {
    ticks == [] || ticks[0].now >= c.Deadline() ||
    (&& (ticks[0].wake.TimedOut? && |ticks| > 1 ==> ticks[1].now >= Until(c, AfterSend(c, s, ticks[0].now)))
     && Patient(c, Turn(c, s, ticks[0], lib), ticks[1..], lib))
  }

  /** The datagrams received in the loop's turns. */
  function Datagrams(c: Call, ticks: seq<Tick>): nat {
    if ticks == [] || ticks[0].now >= c.Deadline() then 0
    else (if ticks[0].wake.Got? then 1 else 0) + Datagrams(c, ticks[1..])
  }

  lemma {:induction false} TurnsBound(c: Call, s: State, ticks: seq<Tick>, lib: Lib)
    requires s.sendsLeft >= 0 && Patient(c, s, ticks, lib)
    ensures Turns(c, ticks) <=
            Datagrams(c, ticks) + s.sendsLeft + (if ticks != [] && Due(s, ticks[0].now) then 0 else 1)
    decreases |ticks|
  {
    hide Accepted, SetItem;
    if ticks != [] && ticks[0].now < c.Deadline() {
      TurnsBound(c, Turn(c, s, ticks[0], lib), ticks[1..], lib);
    }
  }

  /** With `D` datagrams received the loop takes at most `D + max(1, retries)` turns, so it
      ends within `D + max(1, retries) + 1` checks of the clock. */
  lemma LoopEnds(c: Call, ticks: seq<Tick>, lib: Lib)
    requires 0.0 <= c.start && Monotone(ticks, c.start) && Patient(c, Start(c), ticks, lib)
    ensures Turns(c, ticks) <= Datagrams(c, ticks) + c.Sends()
    ensures |ticks| > Datagrams(c, ticks) + c.Sends() ==> Reaches(ticks, c.Deadline())
  {
    TurnsBound(c, Start(c), ticks, lib);
    if Turns(c, ticks) < |ticks| { TurnsReach(c, ticks); }
  }

  lemma {:induction false} TurnsReach(c: Call, ticks: seq<Tick>)
    requires Turns(c, ticks) < |ticks|
    ensures ticks[Turns(c, ticks)].now >= c.Deadline()
  {
    if ticks[0].now < c.Deadline() { TurnsReach(c, ticks[1..]); }
  }

  /** One wait a turn. */
  lemma {:induction false} OneWaitATurn(c: Call, s: State, ticks: seq<Tick>, lib: Lib)
    ensures |Loop(c, s, ticks, lib).waits| == |s.waits| + Turns(c, ticks)
    decreases |ticks|
  {
    hide Accepted, SetItem;
    if ticks != [] && ticks[0].now < c.Deadline() {
      OneWaitATurn(c, Turn(c, s, ticks[0], lib), ticks[1..], lib);
    }
  }

  // ---- one call ----

  predicate Since(sent: seq<real>, start: real) { forall i | 0 <= i < |sent| :: sent[i] >= start }

  lemma SinceTurn(c: Call, s: State, t: Tick, lib: Lib)
    requires Since(s.sent, c.start) && t.now >= c.start
    ensures Since(Turn(c, s, t, lib).sent, c.start)
  {
    hide Accepted, SetItem;
  }

  lemma {:induction false} SentSince(c: Call, s: State, ticks: seq<Tick>, from: real, lib: Lib)
    requires Monotone(ticks, from) && c.start <= from && Since(s.sent, c.start)
    ensures Since(Loop(c, s, ticks, lib).sent, c.start)
    decreases |ticks|
  {
    hide Turn, Since;
    if ticks != [] && ticks[0].now < c.Deadline() {
      SinceTurn(c, s, ticks[0], lib);
      SentSince(c, Turn(c, s, ticks[0], lib), ticks[1..], ticks[0].now, lib);
    }
  }

  /** The first transmission is made in the first turn. */
  lemma {:induction false} FirstStays(c: Call, s: State, ticks: seq<Tick>, lib: Lib)
    requires s.sent != []
    ensures var sent := Loop(c, s, ticks, lib).sent; sent != [] && sent[0] == s.sent[0]
    decreases |ticks|
  {
    hide Accepted, SetItem;
    if ticks != [] && ticks[0].now < c.Deadline() { FirstStays(c, Turn(c, s, ticks[0], lib), ticks[1..], lib); }
  }

  /** One call of `discover`, whatever arrives: with `S` transmissions, `retries` but at least one,
      they begin at once, are at least `timeout / S` apart and end before the timeout; every wait
      is positive and at most the timeout. */
  lemma CallTiming(c: Call, ticks: seq<Tick>, lib: Lib)
    requires Monotone(ticks, c.start)
    ensures var end, s := Loop(c, Start(c), ticks, lib), if c.retries > 1 then c.retries else 1;
      && |end.sent| <= s && |end.waits| == Turns(c, ticks)
      && (forall i | 0 <= i < |end.sent| :: c.start <= end.sent[i] < c.start + c.timeout)
      && (forall i: nat | i + 1 < |end.sent| :: end.sent[i + 1] - end.sent[i] >= c.timeout / (s as real))
      && (forall i | 0 <= i < |end.waits| :: 0.0 < end.waits[i] <= c.timeout)
      && (ticks != [] && 0.0 <= ticks[0].now < c.start + c.timeout ==> end.sent != [] && end.sent[0] == ticks[0].now)
  {
    if ticks != [] && 0.0 <= ticks[0].now < c.Deadline() {
      FirstStays(c, Turn(c, Start(c), ticks[0], lib), ticks[1..], lib);
    }
    SentSince(c, Start(c), ticks, c.start, lib);
    hide Turn;
    Transmissions(c, Start(c), ticks, lib);
    Waits(c, Start(c), ticks, c.start, lib);
    OneWaitATurn(c, Start(c), ticks, lib);
  }

  /** One call whose loop is never more than `d` late, on a clock that counts up from zero. */
  lemma CallTransmits(c: Call, ticks: seq<Tick>, lib: Lib, d: real)
    requires d >= 0.0 && ((c.Sends() * c.Sends()) as real) * d < c.timeout
    requires 0.0 <= c.start && Monotone(ticks, c.start) && Reaches(ticks, c.Deadline())
    requires Punctual(c, Start(c), ticks, lib, d, c.start + d)
    ensures |Loop(c, Start(c), ticks, lib).sent| == if c.retries > 1 then c.retries else 1
  {
    assert Latest(c, d, 0) == c.start + d;
    EveryTransmission(c, Start(c), ticks, c.start, lib, d, c.start + d);
  }

  // ---- the bound on lateness is tight ----

  /** The timeout over the square of the transmissions. */
  function Share(c: Call): real { c.timeout / ((c.Sends() * c.Sends()) as real) }

  lemma ShareIs(c: Call)
    requires c.timeout > 0.0
    ensures Share(c) > 0.0 && ((c.Sends() * c.Sends()) as real) * Share(c) == c.timeout
  {
    Square(c.Sends());
    Shares(c.timeout, (c.Sends() * c.Sends()) as real);
    LatestAt(c, Share(c), 0);
  }

  /** Looks at the clock from the `j`-th transmission on, each exactly `d` late. */
  function LateTicks(c: Call, d: real, j: nat): seq<Tick>
    decreases c.Sends() - j
  {
    [Tick(Latest(c, d, j), TimedOut)] + if j + 1 < c.Sends() then LateTicks(c, d, j + 1) else []
  }

  /** When `n` delays make a share, a share short of the last there is a delay to spare. */
  lemma Spare(n: real, g: real, d: real, k: real)
    requires 0.0 <= k <= n - 2.0 && d > 0.0 && n * d == g
    ensures k * g + (k + 1.0) * d + g < n * g
  {
    assert g >= 0.0 by { Grow(0.0, n, d); }
    Grow(k + 1.0, n - 1.0, g);
    Grow(k + 1.0, n - 1.0, d);
    assert (k + 1.0) * g == k * g + g && (n - 1.0) * g == n * g - g && (n - 1.0) * d == n * d - d;
  }

  /** The last share and its delays end on the deadline. */
  lemma LastShare(n: real, g: real, d: real)
    requires n * d == g
    ensures (n - 1.0) * g + n * d == n * g
  {
  }

  lemma LatestAt(c: Call, d: real, j: nat)
    requires c.timeout > 0.0 && d == Share(c) && j < c.Sends()
    ensures d > 0.0 && c.Gap() > 0.0 && Latest(c, d, c.Sends() - 1) == c.Deadline()
    ensures j + 1 < c.Sends() ==> Latest(c, d, j) + c.Gap() < c.Deadline()
  {
    var n, g, k := c.Sends() as real, c.Gap(), j as real;
    Square(c.Sends());
    Shares(c.timeout, n);
    Shares(c.timeout, n * n);
    Associate(n, d);
    Same(n, n * d, g);
    Positive(c.timeout, n);
    Positive(c.timeout, n * n);
    LastShare(n, g, d);
    assert (c.Sends() - 1) as real == n - 1.0 && (j + 1) as real == k + 1.0;
    if j + 1 < c.Sends() { Spare(n, g, d, k); }
  }

  lemma Same(n: real, a: real, b: real)
    requires n > 0.0 && n * a == n * b
    ensures a == b
  {
    assert n * (a - b) == 0.0;
  }

  lemma Positive(t: real, n: real)
    requires t > 0.0 && n >= 1.0
    ensures t / n > 0.0
  {
    Shares(t, n);
  }

  lemma {:induction false} LateRun(c: Call, s: State, lib: Lib, d: real, j: nat, from: real)
    requires c.timeout > 0.0 && 0.0 <= c.start && d == Share(c)
    requires j < c.Sends() && s.sendsLeft == c.Sends() - j && |s.sent| == j
    requires s.resendAt <= Latest(c, d, j) - (if j == 0 then c.start else d) && from <= Latest(c, d, j)
    ensures var ticks := LateTicks(c, d, j);
      && Monotone(ticks, from) && Reaches(ticks, c.Deadline()) && Punctual(c, s, ticks, lib, d, Latest(c, d, j))
      && |Loop(c, s, ticks, lib).sent| == c.Sends() - 1
    decreases c.Sends() - j
  {
    hide Share;
    var ticks := LateTicks(c, d, j);
    var t := ticks[0];
    LatestAt(c, d, j);
    assert t.now == Latest(c, d, j);
    if j + 1 < c.Sends() {
      var s' := Turn(c, s, t, lib);
      TailOfCons(t, LateTicks(c, d, j + 1));
      LatestNext(c, d, j);
      LatestAt(c, d, j + 1);
      LateTurn(c, s, t, lib);
      hide Turn, Latest;
      LateRun(c, s', lib, d, j + 1, t.now);
      ReachesLater(ticks, c.Deadline());
    } else {
      assert ticks == [t];
      assert ticks[0].now >= c.Deadline();
    }
  }

  lemma LateTurn(c: Call, s: State, t: Tick, lib: Lib)
    requires Due(s, t.now) && t.wake.TimedOut?
    ensures var s' := Turn(c, s, t, lib);
      s'.sendsLeft == s.sendsLeft - 1 && |s'.sent| == |s.sent| + 1 && s'.resendAt == t.now + c.Gap()
    ensures s.sendsLeft > 1 && t.now + c.Gap() < c.Deadline() ==> Until(c, AfterSend(c, s, t.now)) == t.now + c.Gap()
  {
  }

  lemma ReachesLater(ticks: seq<Tick>, deadline: real)
    requires ticks != [] && Reaches(ticks[1..], deadline)
    ensures Reaches(ticks, deadline)
  {
    var k :| 0 <= k < |ticks[1..]| && ticks[1..][k].now >= deadline;
    assert ticks[k + 1] == ticks[1..][k];
  }

  lemma FirstLatest(c: Call, d: real)
    ensures Latest(c, d, 0) == c.start + d
  {
  }

  lemma LateCall(c: Call, lib: Lib)
    requires c.timeout > 0.0 && 0.0 <= c.start && Share(c) > 0.0
    ensures var ticks := LateTicks(c, Share(c), 0);
      && Monotone(ticks, c.start) && Reaches(ticks, c.Deadline())
      && Punctual(c, Start(c), ticks, lib, Share(c), Latest(c, Share(c), 0))
      && |Loop(c, Start(c), ticks, lib).sent| == c.Sends() - 1
  {
    hide Share, LateTicks, Monotone, Reaches, Punctual, Loop;
    FirstLatest(c, Share(c));
    hide Latest;
    LateRun(c, Start(c), lib, Share(c), 0, c.start);
  }

  /** The bound is tight for every `S` and every timeout: when every look is late by exactly
      `timeout / (S * S)`, one transmission is lost. */
  lemma LatenessIsTight(c: Call, lib: Lib) returns (ticks: seq<Tick>, d: real)
    requires c.timeout > 0.0 && 0.0 <= c.start
    ensures d > 0.0 && ((c.Sends() * c.Sends()) as real) * d == c.timeout
    ensures Monotone(ticks, c.start) && Reaches(ticks, c.Deadline())
            && Punctual(c, Start(c), ticks, lib, d, c.start + d)
    ensures |Loop(c, Start(c), ticks, lib).sent| == c.Sends() - 1
  {
    hide Share, LateTicks, Monotone, Reaches, Punctual, Loop, Latest;
    d := Share(c);
    ShareIs(c);
    ticks := LateTicks(c, d, 0);
    FirstLatest(c, d);
    LateCall(c, lib);
  }
}
