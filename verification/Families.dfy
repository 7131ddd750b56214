/** The queries on which the responders differ are no empty families: every short enough name or
    number gives one. */
module Families {
  import opened Bytes
  import opened PyText
  import opened PyJson
  import opened CppJson
  import opened Protocol
  import opened ProtocolProofs
  import opened MessageSize
  import opened Agreement
  import opened ClientQueries
  import opened LongIds
  import opened Differences
  import opened Utf8

  function OneFilter(key: Str, p: Str): Dict { [Entry(key, PStr(p))] }

  /** A query for one pattern takes at most 12 bytes a character of its id and its pattern. */
  lemma PatternQuerySize(key: Str, p: Str, qid: Str)
    requires IsFilterKey(key)
    ensures var msg := BuildQuery(Some(OneFilter(key, p)), Some(qid), qid);
      msg.Some? && |Dumps(PDict(msg.value))| <= 141 + 12 * |p| + 12 * |qid|
  {
    var filter := Entry(K_FILTER, PDict(OneFilter(key, p)));
    QuerySize(qid);
    Shape(key, p, qid);
    FilterSize(key, p);
    hide L, Dumps, MemberSize, PyMember, BuildQuery, QueryWith;
    PyQuotedSize(qid);
    PyOneMore(QueryWith(qid), filter, []);
    assert QueryWith(qid) + [] == QueryWith(qid);
  }

  lemma Shape(key: Str, p: Str, qid: Str)
    requires IsFilterKey(key)
    ensures BuildQuery(Some(OneFilter(key, p)), Some(qid), qid) ==
            Some(QueryWith(qid) + [Entry(K_FILTER, PDict(OneFilter(key, p)))] + [])
    ensures QueryWith(qid) != []
  {
    hide L;
    var f := OneFilter(key, p);
    assert ValidFilter(PDict(f));
    var msg := QueryWith(qid) + [Entry(K_FILTER, PDict(f))];
    assert msg + [] == msg;
  }

  lemma FilterSize(key: Str, p: Str)
    requires IsFilterKey(key)
    ensures MemberSize(PyMember(Entry(K_FILTER, PDict(OneFilter(key, p))))) <= 82 + 12 * |p|
  {
    var e := Entry(key, PStr(p));
    PlainNames();
    hide L, Dumps, MemberSize, PyMember, Plain;
    PyQuotedSize(p);
    PyQuotedSize(key);
    PyQuotedSize(K_FILTER);
    PyOneSize(e);
    EntrySize(e);
    EntrySize(Entry(K_FILTER, PDict(OneFilter(key, p))));
  }

  lemma PlainNames()
    ensures |K_APP| <= 4 && |K_NAME| <= 4 && |K_HOST| <= 4 && |K_FILTER| == 6 && Plain(K_FILTER)
  {
    Names();
  }

  lemma NulFamily(app: Str, tail: Str, qid: Str)
    requires Simple(qid) && NoNul(app) && NoSurrogates(app)
    requires InBmp(app + ([0] + tail)) && NoPairs(app + ([0] + tail))
    requires |app| + |tail| + |qid| <= 100
    ensures NulQuery(app, tail, qid)
  {
    PatternQuerySize(K_APP, app + ([0] + tail), qid);
    hide Dumps, BuildQuery, Simple, InBmp, NoPairs, L;
  }

  lemma AstralFamily(name: Str, qid: Str)
    requires qid != [] && Simple(qid) && NoNul(name) && !InBmp(name) && NoSurrogates(name) && |name| + |qid| <= 100
    ensures AstralQuery(name, qid)
  {
    PatternQuerySize(K_NAME, name, qid);
    hide Dumps, Simple, InBmp, NoSurrogates, L;
  }

  /** Numbers of over a thousand digits, far more than `stod` accepts. */
  lemma NumberFamily(n: int, qid: Bytes)
    requires |ShowInt(n)| + 12 * |qid| <= 1300
    ensures |Dumps(PDict(NumberMsg(n, qid)))| <= MAX_DATAGRAM
  {
    var e, x := Entry(K_QID, PStr(qid)), Entry(K_X, PInt(n));
    NoIdSize();
    Word("x");
    hide L, MemberSize, PyMember, Dumps;
    PyQuotedSize(qid);
    PyQuotedSize(K_X);
    PyQidSize(qid);
    EntrySize(x);
    IntSize(n);
    PyOneMore(NoId(), e, [x]);
    PyOneMore(NoId(), x, []);
    assert NoId() + [e] + [x] == NumberMsg(n, qid) && NoId() + [x] + [] == NoId() + [x] && NoId() + [] == NoId();
  }

  lemma IntSize(n: int)
    ensures Dumps(PInt(n)) == ShowInt(n)
  {
    assert ShowInt(n) + [] == ShowInt(n);
  }
}
