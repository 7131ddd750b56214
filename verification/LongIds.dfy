/** One query that ends a Python responder: its reply does not fit a datagram, and the ProtocolError
    `encode` raises is not one the loop catches. */
module LongIds {
  import opened Bytes
  import Grammar
  import opened PyText
  import opened PyJson
  import opened Protocol
  import opened ProtocolProofs
  import opened MessageSize
  import opened ClientQueries
  import opened ResponderLog
  import opened PyLoop
  import opened PyLoopProofs
  import opened Utf8

  /** The query `build_query(qid=q)`. */
  function QueryWith(q: Str): Dict { BuildQuery(None, Some(q), q).value }

  lemma QuerySize(q: Str)
    ensures |Dumps(PDict(QueryWith(q)))| == 56 + |Dumps(PStr(q))|
    ensures Plain(q) ==> |Dumps(PDict(QueryWith(q)))| == 58 + |q|
    ensures Plain(q) ==> (Encoded(QueryWith(q)).Some? <==> |q| <= 1342)
  {
    var e := Entry(K_QID, PStr(q));
    NoIdSize();
    assert NoId() + [e] + [] == QueryWith(q) && NoId() + [] == NoId();
    hide L, Dumps, MemberSize;
    PyOneMore(NoId(), e, []);
    PyQidSize(q);
    PyQuotedSize(q);
  }

  lemma {:induction false} TotalAtLeast(ms: seq<Grammar.Member>)
    ensures TotalSize(ms) >= 3 * |ms|
  {
    if ms != [] {
      var m := ms[0];
      assert |Grammar.Text(Grammar.TStr(m.key), [])| >= 2 by { BodyText(m.key, []); }
      TotalAtLeast(ms[1..]);
    }
  }

  /** Every ANNOUNCE takes at least 85 bytes. */
  lemma AnnounceAtLeast(a: About, meta: Option<Dict>)
    ensures |Dumps(PDict(AnnounceOf(a, None, meta)))| >= 85
  {
    var d := AnnounceOf(a, None, meta);
    var e, f, rest := d[0], d[1], d[2..];
    assert d == [e, f] + rest && |rest| >= 9;
    assert e == Entry(K_PROTO, PStr(PROTO)) && f == Entry(K_TYPE, PStr(ANNOUNCE));
    hide L, AnnounceOf, Dumps;
    FirstTwo();
    PyMembersConcat([e, f], rest);
    PyCompact(d);
    TotalConcat(PyMembersOf([e, f]), PyMembersOf(rest));
    TotalAtLeast(PyMembersOf(rest));
    AnnounceSize(d);
  }

  lemma {:induction false} AnnounceSize(d: Dict)
    requires d != []
    ensures |Dumps(PDict(d))| == TotalSize(PyMembersOf(d)) + |d| + 1
  {
    PyCompact(d);
    ObjectSize(PyMembersOf(d));
  }

  lemma PlainAnnounce()
    ensures Plain(ANNOUNCE) && |ANNOUNCE| == 8
  {
  }

  lemma FirstTwo()
    ensures TotalSize(PyMembersOf([Entry(K_PROTO, PStr(PROTO)), Entry(K_TYPE, PStr(ANNOUNCE))])) == 46
  {
    var e, f := Entry(K_PROTO, PStr(PROTO)), Entry(K_TYPE, PStr(ANNOUNCE));
    PlainWords();
    PlainAnnounce();
    hide L, Plain, MemberSize, Dumps, PyMembersOf;
    EntrySize(e);
    EntrySize(f);
    PyQuotedSize(K_PROTO);
    PyQuotedSize(PROTO);
    PyQuotedSize(K_TYPE);
    PyQuotedSize(ANNOUNCE);
    TwoMembers(e, f);
  }

  lemma TwoMembers(e: Entry, f: Entry)
    ensures TotalSize(PyMembersOf([e, f])) == MemberSize(PyMember(e)) + MemberSize(PyMember(f))
  {
    hide MemberSize, PyMember;
    assert [e, f] == [e] + [f];
    PyMembersConcat([e], [f]);
    OneMember(e);
    OneMember(f);
    TotalConcat(PyMembersOf([e]), PyMembersOf([f]));
  }

  lemma OneMember(e: Entry)
    ensures TotalSize(PyMembersOf([e])) == MemberSize(PyMember(e))
  {
    hide MemberSize, PyMember;
    assert [e][1..] == [] && PyMembersOf([e]) == [PyMember(e)];
    assert [PyMember(e)][1..] == [];
  }

  lemma PlainNoPairs(q: Str)
    requires Plain(q)
    ensures NoPairs(q)
  {
  }

  /** Every Python responder answers such a query. */
  lemma LongIdAnswered(q: Str, own: Dict, lib: Lib)
    requires Plain(q) && |q| <= 1342
    ensures Encoded(QueryWith(q)) == Some(Dumps(PDict(QueryWith(q))))
    ensures PyAnswer(Dumps(PDict(QueryWith(q))), own, lib) == Answer.Reply(Some(PStr(q)))
  {
    var data := Dumps(PDict(QueryWith(q)));
    QuerySize(q);
    PlainNoPairs(q);
    QueryFields(None, Some(q), q);
    QueryDecodes(None, Some(q), q);
    hide L, Dumps, Get, BuildQuery, ValidMessage, ValidDiscover, PyAnswer, Plain;
    AnswersIf(data, QueryWith(q), own, lib);
  }

  /** A valid query with a plain id of `n` bytes fits a datagram iff `n <= 1342`, and, received
      by any Python responder at any time, ends its loop with that error iff the unsolicited
      announce has more than `1391 - n` bytes, unless a beacon does first. */
  lemma LongIdIsFatal(c: Config, next: Option<real>, t: Step, q: Str)
    requires Plain(q) && |q| <= 1342 && !t.stopTop && !t.stopMid
    requires t.inbound.Datagram? && t.inbound.data == Dumps(PDict(QueryWith(q)))
    ensures Crash in Turn(c, next, t) <==>
            BeaconTooBig(c, next, t) || |Dumps(PDict(Announce(c, None, t.replyAs)))| > 1391 - |q|
  {
    LongIdAnswered(q, Announce(c, None, t.filterAs), c.lib);
    PyQuotedSize(q);
    hide Turn, Announce, Dumps, PyAnswer, QueryWith, Plain;
    TurnCrash(c, next, t);
  }

  /** With the longest id that fits, 1342 plain bytes, there is no way out: whatever the
      service, its beacons and the time, the run ends with that error. */
  lemma LongestIdEndsEveryRun(c: Config, next: Option<real>, steps: seq<Step>, k: nat, q: Str)
    requires Reached(c, next, steps, k) && !steps[k].stopTop && !steps[k].stopMid
    requires Plain(q) && |q| == 1342 && steps[k].inbound.Datagram?
    requires steps[k].inbound.data == Dumps(PDict(QueryWith(q)))
    ensures Encoded(QueryWith(q)) == Some(steps[k].inbound.data)
    ensures Crash in Log(c, next, steps)
  {
    var t := steps[k];
    LongIdAnswered(q, Announce(c, None, t.filterAs), c.lib);
    AnnounceAtLeast(AboutService(c.service, c.id, None, t.replyAs), c.service.meta);
    LongIdIsFatal(c, NextAt(c, next, steps, k), t, q);
    hide Turn, Announce, Dumps, PyAnswer, QueryWith, Plain, AnnounceOf;
    TurnCrash(c, NextAt(c, next, steps, k), t);
    assert FatalTurn(c, next, steps, k);
    CrashIff(c, next, steps);
  }
}
