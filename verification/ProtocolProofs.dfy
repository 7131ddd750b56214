/** What `protocol.py` promises of its own messages. */
module ProtocolProofs {
  import opened Bytes
  import opened Grammar
  import opened PyText
  import opened PyJson
  import opened Protocol
  import opened Utf8

  // ---- dicts ----

  lemma {:induction false} GetAt(d: Dict, i: nat)
    requires i < |d| && forall j | 0 <= j < i :: d[j].key != d[i].key
    ensures Get(d, d[i].key) == Some(d[i].val)
  {
    if i > 0 { GetAt(d[1..], i - 1); }
  }

  lemma {:induction false} GetAbsent(d: Dict, key: Str)
    requires !Has(d, key)
    ensures Get(d, key).None?
  {
    if d != [] {
      assert d[0].key != key;
      assert forall i | 0 <= i < |d[1..]| :: d[1..][i] == d[i + 1];
      GetAbsent(d[1..], key);
    }
  }

  lemma GetOne(e: Entry, key: Str)
    ensures Get([e], key) == if key == e.key then Some(e.val) else None
  {
    assert Get([e][1..], key).None?;
  }

  lemma {:induction false} GetFound(d: Dict, key: Str) returns (i: nat)
    requires Get(d, key).Some?
    ensures i < |d| && d[i] == Entry(key, Get(d, key).value)
  {
    if d[0].key == key { return 0; }
    i := GetFound(d[1..], key);
    i := i + 1;
  }

  lemma {:induction false} RealEach(d: Dict)
    ensures RealEntries(d) <==> forall e <- d :: Real(e.val)
  {
    if d != [] {
      RealEach(d[1..]);
      HeadTail(d);
      assert forall e <- d :: e == d[0] || e in d[1..];
    }
  }

  // ---- the fields of a message ----

  lemma QueryFields(filter: Option<Dict>, qid: Option<Str>, uuid: Str)
    requires BuildQuery(filter, qid, uuid).Some?
    ensures var msg := BuildQuery(filter, qid, uuid).value;
      && DistinctKeys(msg) && Get(msg, K_PROTO) == Some(PStr(PROTO)) && Get(msg, K_TYPE) == Some(PStr(DISCOVER))
      && Get(msg, K_QID) == Some(PStr(Or(qid, uuid)))
      && Get(msg, K_FILTER) == (if filter.None? || filter.value == [] then None else Some(PDict(filter.value)))
      && (filter.Some? && filter.value != [] ==> ValidFilter(PDict(filter.value)))
      && (forall e <- msg :: e.val.PStr? || (filter.Some? && e.val == PDict(filter.value)))
  {
    var msg := BuildQuery(filter, qid, uuid).value;
    Names();
    hide Get, ValidFilter, L;
    assert DistinctKeys(msg);
    GetAt(msg, 0);
    GetAt(msg, 1);
    GetAt(msg, 2);
    if |msg| == 4 { GetAt(msg, 3); } else { GetAbsent(msg, K_FILTER); }
  }

  lemma HeadKeys(a: About)
    ensures DistinctKeys(Head(a)) && !Has(Head(a), K_QID) && !Has(Head(a), K_META) && |Head(a)| == 11 && K_QID != K_META
  {
    Names();
  }

  lemma HeadFields(a: About)
    ensures var head := Head(a);
      && Get(head, K_PROTO) == Some(PStr(PROTO)) && Get(head, K_TYPE) == Some(PStr(ANNOUNCE))
      && Get(head, K_ID) == Some(PStr(a.id)) && Get(head, K_NAME) == Some(PStr(a.name))
      && Get(head, K_APP) == Some(PStr(a.app)) && Get(head, K_HOST) == Some(PStr(a.host))
      && Get(head, K_PORT) == Some(PInt(a.port)) && Get(head, K_SCHEME) == Some(PStr(a.scheme))
      && Get(head, K_VERSION) == Some(PStr(a.version)) && Get(head, K_PID) == Some(PInt(a.pid))
      && Get(head, K_STARTED) == Some(PStr(a.started))
  {
    var head := Head(a);
    HeadKeys(a);
    hide Get, L;
    GetAt(head, 0);
    GetAt(head, 1);
    GetAt(head, 2);
    GetAt(head, 3);
    GetAt(head, 4);
    GetAt(head, 5);
    GetAt(head, 6);
    GetAt(head, 7);
    GetAt(head, 8);
    GetAt(head, 9);
    GetAt(head, 10);
  }

  lemma {:induction false} GetConcat(a: Dict, b: Dict, key: Str)
    ensures Get(a + b, key) == if Get(a, key).Some? then Get(a, key) else Get(b, key)
  {
    if a == [] {
      assert a + b == b;
    } else {
      assert (a + b)[1..] == a[1..] + b;
      GetConcat(a[1..], b, key);
    }
  }

  /** An ANNOUNCE is its head, then the `qid` it echoes and the `meta` it has, if any. */
  lemma AnnounceFields(a: About, qid: Option<Str>, meta: Option<Dict>)
    ensures var msg := AnnounceOf(a, qid, meta);
      && (forall key | Get(Head(a), key).Some? :: Get(msg, key) == Get(Head(a), key))
      && Get(msg, K_QID) == (if qid.Some? then Some(PStr(qid.value)) else None)
      && Get(msg, K_META) == (if meta.Some? && meta.value != [] then Some(PDict(meta.value)) else None)
  {
    var head, q, m := Head(a), QidPart(qid), MetaPart(meta);
    HeadKeys(a);
    hide Head, L;
    forall key ensures Get(head + q + m, key) ==
        if Get(head, key).Some? then Get(head, key) else if Get(q, key).Some? then Get(q, key) else Get(m, key) {
      GetConcat(head + q, m, key);
      GetConcat(head, q, key);
    }
    GetAbsent(head, K_QID);
    GetAbsent(head, K_META);
    if qid.Some? { GetOne(q[0], K_META); GetOne(q[0], K_QID); }
    if m != [] { GetOne(m[0], K_META); GetOne(m[0], K_QID); }
  }

  /** It passes its validator iff its `meta` holds only strings. */
  lemma AnnounceValid(a: About, qid: Option<Str>, meta: Option<Dict>)
    ensures ValidMessage(AnnounceOf(a, qid, meta)) <==> (meta.Some? ==> StringsOnly(meta.value))
    ensures Get(AnnounceOf(a, qid, meta), K_TYPE) == Some(PStr(ANNOUNCE))
  {
    AnnounceFields(a, qid, meta);
    HeadFields(a);
    Names();
    hide Get, AnnounceOf, Head, L;
  }

  lemma AnnounceDict(a: About, qid: Option<Str>, meta: Option<Dict>)
    ensures var msg := AnnounceOf(a, qid, meta);
      && DistinctKeys(msg)
      && forall e <- msg :: e.val.PStr? || e.val.PInt? || (meta.Some? && e.val == PDict(meta.value))
  {
    HeadKeys(a);
    HeadScalars(a);
    hide Head, L, Has, DistinctKeys;
    TwoMore(Head(a), qid, meta);
  }

  lemma HeadScalars(a: About)
    ensures forall e <- Head(a) :: e.val.PStr? || e.val.PInt?
  {
    hide L;
  }

  lemma TwoMore(head: Dict, qid: Option<Str>, meta: Option<Dict>)
    requires DistinctKeys(head) && !Has(head, K_QID) && !Has(head, K_META) && K_QID != K_META
    requires forall e <- head :: e.val.PStr? || e.val.PInt?
    ensures var msg := head + QidPart(qid) + MetaPart(meta);
      && DistinctKeys(msg)
      && forall e <- msg :: e.val.PStr? || e.val.PInt? || (meta.Some? && e.val == PDict(meta.value))
  {
    hide L, Has, DistinctKeys;
    if qid.Some? { DistinctPlus(head, QidPart(qid)[0]); } else { assert head + [] == head; }
    var d := head + QidPart(qid);
    if MetaPart(meta) != [] { DistinctPlus(d, MetaPart(meta)[0]); } else { assert d + [] == d; }
  }

  lemma DistinctPlus(d: Dict, e: Entry)
    requires DistinctKeys(d) && !Has(d, e.key)
    ensures DistinctKeys(d + [e])
    ensures forall key | key != e.key && !Has(d, key) :: !Has(d + [e], key)
  {
  }

  /** A filter a caller can hold: the keys of a dict are distinct. */
  predicate RealDict(d: Option<Dict>) { d.Some? ==> Real(PDict(d.value)) }

  /** `decode` undoes `encode` on every query that fits a datagram, unless some string in it
      holds a split surrogate pair; whether or not it does, the query passes its validator. */
  lemma QueryRoundTrip(filter: Option<Dict>, qid: Option<Str>, uuid: Str)
    requires RealDict(filter) && BuildQuery(filter, qid, uuid).Some?
    requires Encoded(BuildQuery(filter, qid, uuid).value).Some?
    ensures var msg := BuildQuery(filter, qid, uuid).value;
      && ValidMessage(msg) && ValidDiscover(msg)
      && (Decoded(Encoded(msg).value) == Some(msg) <==> AllJoined(StrsOf(PDict(msg))))
  {
    var msg := BuildQuery(filter, qid, uuid).value;
    QueryFields(filter, qid, uuid);
    hide Get, ValidFilter, BuildQuery, AllJoined, StrsOf, L, Dumps, Loads;
    assert ValidMessage(msg) && ValidDiscover(msg);
    RealEach(msg);
    LoadsDumps(PDict(msg));
  }

  /** The same for announces, whose `meta` must also hold only strings: `build_announce` does
      not check that, `decode` does. */
  lemma AnnounceRoundTrip(s: Service, id: Str, qid: Option<Str>, started: Option<Str>, p: Process)
    requires RealDict(s.meta)
    requires Encoded(BuildAnnounce(s, id, qid, started, p)).Some?
    ensures var msg := BuildAnnounce(s, id, qid, started, p);
      && (ValidMessage(msg) <==> (s.meta.Some? ==> StringsOnly(s.meta.value)))
      && (Decoded(Encoded(msg).value) == Some(msg) <==>
            (s.meta.Some? ==> StringsOnly(s.meta.value)) && AllJoined(StrsOf(PDict(msg))))
  {
    var msg, a := BuildAnnounce(s, id, qid, started, p), AboutService(s, id, started, p);
    AnnounceValid(a, qid, s.meta);
    AnnounceDict(a, qid, s.meta);
    hide Get, AnnounceOf, ValidMessage, AllJoined, StrsOf, L, Dumps, Loads;
    RealEach(msg);
    LoadsDumps(PDict(msg));
  }
}
