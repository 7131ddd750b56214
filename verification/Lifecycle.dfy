/** `Responder::start` and `stop` against the thread they start, over all interleavings: one
    owner calling, one loop running. */
module Lifecycle {
  import opened Bytes

  /** Where the loop is. */
  datatype Loop =
    | NoThread
    | AtTop                  // about to look at the flag in the `while`
    | Receiving
    | AtMiddle               // about to look at the flag after the receive
    | Replying
    | Announcing
    | Done

  /** Where the owner is. */
  datatype Owner =
    | Idle                   // between calls
    | Joining                // in `stop`, the flag set
    | Closing                // in `stop`, the thread joined

  /** `open` counts the sockets the responder has open, `thrown` the threads that could not be
      created; `orphan` is whether the last `start` ended that way.  `sent` counts the datagrams
      the loop sent, `late` those sent since the flag was last set. */
  datatype Sys = Sys(sock: int, open: int, thrown: nat, orphan: bool, flag: bool, joinable: bool, loop: Loop,
                     owner: Owner, sent: nat, late: nat)

  const UNSTARTED := Sys(-1, 0, 0, false, false, false, NoThread, Idle, 0, 0)

  predicate Init(s: Sys) { s == UNSTARTED }

  // ---- the owner ----

  /** `start` succeeds.  It is not called on a responder that is running. */
  predicate StartOk(s: Sys, t: Sys) {
    s.owner.Idle? && !s.joinable && t.sock >= 0
    && t == s.(sock := t.sock, open := s.open + 1, orphan := false, flag := false, joinable := true, loop := AtTop,
               late := 0)
  }

  /** `start` throws: no socket, or one closed again. */
  predicate StartFails(s: Sys, t: Sys) { s.owner.Idle? && !s.joinable && t == s.(sock := -1, orphan := false) }

  /** `start` throws because no thread can be created: its socket stays open. */
  predicate ThreadFails(s: Sys, t: Sys) {
    s.owner.Idle? && !s.joinable && t.sock >= 0
    && t == s.(sock := t.sock, open := s.open + 1, thrown := s.thrown + 1, orphan := true, flag := false)
  }

  /** `stop` with nothing to stop returns at once. */
  predicate StopIdle(s: Sys, t: Sys) { s.owner.Idle? && !s.joinable && t == s }

  predicate SetFlag(s: Sys, t: Sys) {
    s.owner.Idle? && s.joinable && t == s.(flag := true, owner := Joining, late := 0)
  }

  /** The join returns once the loop is over. */
  predicate Join(s: Sys, t: Sys) {
    s.owner.Joining? && s.loop.Done? && t == s.(joinable := false, loop := NoThread, owner := Closing)
  }

  predicate Close(s: Sys, t: Sys) {
    s.owner.Closing? && t == s.(sock := -1, open := if s.sock >= 0 then s.open - 1 else s.open, owner := Idle)
  }

  // ---- the loop ----

  predicate LookTop(s: Sys, t: Sys) {
    s.loop.AtTop? && t == s.(loop := if s.flag then Done else Receiving)
  }

  predicate Receive(s: Sys, t: Sys) { s.loop.Receiving? && t == s.(loop := AtMiddle) }

  predicate LookMiddle(s: Sys, t: Sys) {
    s.loop.AtMiddle? && t == s.(loop := if s.flag then Done else Replying)
  }

  function Sent(s: Sys): Sys { s.(sent := s.sent + 1, late := if s.flag then s.late + 1 else s.late) }

  /** A reply, or none. */
  predicate ReplyOrNot(s: Sys, t: Sys) {
    s.loop.Replying? && (t == s.(loop := Announcing) || t == Sent(s).(loop := Announcing))
  }

  /** A beacon, or none. */
  predicate AnnounceOrNot(s: Sys, t: Sys) {
    s.loop.Announcing? && (t == s.(loop := AtTop) || t == Sent(s).(loop := AtTop))
  }

  predicate Next(s: Sys, t: Sys) {
    || StartOk(s, t) || StartFails(s, t) || ThreadFails(s, t) || StopIdle(s, t) || SetFlag(s, t) || Join(s, t)
    || Close(s, t)
    || LookTop(s, t) || Receive(s, t) || LookMiddle(s, t) || ReplyOrNot(s, t) || AnnounceOrNot(s, t)
  }

  ghost predicate Run(trace: seq<Sys>) {
    trace != [] && Init(trace[0]) && forall i: nat | i + 1 < |trace| :: Next(trace[i], trace[i + 1])
  }

  // ---- invariant ----

  /** The datagrams the loop can still send before it looks at the flag. */
  function Budget(loop: Loop): nat {
    match loop
    case Replying => 2
    case Announcing => 1
    case _ => 0
  }

  predicate Inv(s: Sys) {
    && (s.joinable <==> !s.loop.NoThread?)
    && (s.joinable || s.owner.Closing? ==> s.sock >= 0 && !s.orphan)
    && (!s.joinable && s.owner.Idle? ==> (s.sock >= 0 <==> s.orphan))
    && s.open == s.thrown + (if s.joinable || s.owner.Closing? then 1 else 0)
    && (s.owner.Joining? ==> s.joinable && s.flag)
    && (s.owner.Closing? ==> !s.joinable)
    && (s.joinable && s.owner.Idle? ==> !s.flag && s.late == 0)
    && s.late + (if s.flag then Budget(s.loop) else 0) <= 2
    && (s.loop.Done? ==> s.flag)
  }

  lemma {:induction false} InvHolds(trace: seq<Sys>, i: nat)
    requires Run(trace) && i < |trace|
    ensures Inv(trace[i])
  {
    if i > 0 {
      InvHolds(trace, i - 1);
      assert Next(trace[i - 1], trace[i - 1 + 1]);
    }
  }

  // ---- main results ----

  /** Between calls the socket is open iff there is a thread to join, except after a `start` that
      could not create its thread; and the loop never has its socket closed under it. */
  lemma SocketOpenIffJoinable(trace: seq<Sys>, i: nat)
    requires Run(trace) && i < |trace|
    ensures trace[i].owner.Idle? ==> ((trace[i].sock >= 0 <==> trace[i].joinable) <==> !trace[i].orphan)
    ensures trace[i].loop.Receiving? ==> trace[i].sock >= 0
  {
    InvHolds(trace, i);
  }

  /** Each thread that could not be created costs a socket for good, whatever is called
      afterwards, and nothing else does. */
  lemma SocketsLost(trace: seq<Sys>, i: nat)
    requires Run(trace) && i < |trace| && trace[i].owner.Idle?
    ensures trace[i].open == trace[i].thrown + if trace[i].joinable then 1 else 0
  {
    InvHolds(trace, i);
  }

  /** It can happen on the first call: `stop` then finds no thread and returns at once, and
      another `start` forgets the socket. */
  lemma ThreadFailure(fd: nat, fd': nat) returns (trace: seq<Sys>)
    ensures Run(trace) && |trace| == 4
    ensures ThreadFails(trace[0], trace[1]) && StopIdle(trace[1], trace[2]) && StartOk(trace[2], trace[3])
    ensures trace[2].sock == fd && !trace[2].joinable && trace[2].open == 1
    ensures trace[3].sock == fd' && trace[3].open == 2
  {
    var s := UNSTARTED.(sock := fd, open := 1, thrown := 1, orphan := true);
    var t := s.(sock := fd', open := 2, orphan := false, joinable := true, loop := AtTop);
    assert ThreadFails(UNSTARTED, s) && StopIdle(s, s) && StartOk(s, t);
    trace := [UNSTARTED, s, s, t];
  }

  /** After the flag is set the loop sends at most two datagrams, whatever the interleaving. */
  lemma AtMostTwoLate(trace: seq<Sys>, i: nat)
    requires Run(trace) && i < |trace|
    ensures trace[i].late <= 2
  {
    InvHolds(trace, i);
  }

  /** Once `stop` has returned nothing is sent until the next `start`. */
  lemma {:induction false} NothingAfterStop(trace: seq<Sys>, i: nat, j: nat)
    requires Run(trace) && i <= j < |trace|
    requires forall k | i <= k <= j :: !trace[k].joinable
    ensures trace[j].sent == trace[i].sent
  {
    if i < j {
      NothingAfterStop(trace, i, j - 1);
      InvHolds(trace, j - 1);
      assert Next(trace[j - 1], trace[j - 1 + 1]);
    }
  }

  /** A thread is gone only once its loop has seen the flag: `stop` does not return before. */
  lemma ThreadEndsItself(trace: seq<Sys>, i: nat)
    requires Run(trace) && i + 1 < |trace| && !trace[i].loop.NoThread? && trace[i + 1].loop.NoThread?
    ensures trace[i].loop.Done? && trace[i].flag && trace[i].owner.Joining? && trace[i + 1].owner.Closing?
  {
    InvHolds(trace, i);
    assert Next(trace[i], trace[i + 1]);
  }

  /** The loop's own steps until it is over, once the flag is set. */
  function StepsLeft(s: Sys): nat {
    match s.loop
    case NoThread => 0
    case Done => 0
    case AtTop => 1
    case Announcing => 2
    case Replying => 3
    case AtMiddle => 1
    case Receiving => 2
  }

  predicate LoopStep(s: Sys, t: Sys) {
    LookTop(s, t) || Receive(s, t) || LookMiddle(s, t) || ReplyOrNot(s, t) || AnnounceOrNot(s, t)
  }

  /** `stop` never waits for a loop that cannot end: wherever the loop is when the flag is set,
      it is over within three of its own steps, and then the only step left is the join. */
  lemma StopEnds(trace: seq<Sys>, i: nat)
    requires Run(trace) && i + 1 < |trace| && trace[i].owner.Joining?
    ensures StepsLeft(trace[i]) <= 3
    ensures LoopStep(trace[i], trace[i + 1]) ==> StepsLeft(trace[i + 1]) < StepsLeft(trace[i])
    ensures !LoopStep(trace[i], trace[i + 1]) ==> Join(trace[i], trace[i + 1])
  {
    InvHolds(trace, i);
    assert Next(trace[i], trace[i + 1]);
  }
}
