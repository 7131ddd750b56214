/** How long encoded messages are, for both printers. */
module MessageSize {
  import opened Bytes
  import opened Grammar
  import opened CppJson
  import CppMessages
  import opened PyText
  import opened PyJson
  import opened Protocol
  import opened Utf8

  /** Members written without blanks, as both printers write them. */
  ghost predicate Compact(ms: seq<Member>) {
    forall m <- ms :: m.pre == [] && m.mid == [] && m.val.pre == [] && m.val.post == []
  }

  /** `"key":value`, without its comma. */
  function MemberSize(m: Member): nat {
    |Text(TStr(m.key), [])| + 1 + |Text(m.val.t, [])|
  }

  function TotalSize(ms: seq<Member>): nat {
    if ms == [] then 0 else MemberSize(ms[0]) + TotalSize(ms[1..])
  }

  lemma {:induction false} MembersSize(ms: seq<Member>, k: Bytes)
    requires ms != [] && Compact(ms)
    ensures |MembersText(ms, k)| == TotalSize(ms) + |ms| + |k|
  {
    var m := ms[0];
    var q := if |ms| == 1 then [RBRACE] + k else [COMMA] + MembersText(ms[1..], k);
    if |ms| > 1 {
      assert forall x <- ms[1..] :: x in ms;
      MembersSize(ms[1..], k);
    } else {
      assert ms[1..] == [];
    }
    assert |q| == TotalSize(ms[1..]) + |ms| + |k|;
    assert m in ms;
    TextThen(m.val.t, q);
    ItemsTextThen(m.key, [COLON] + Text(m.val.t, q));
    assert [] + q == q && [] + Text(m.val.t, q) == Text(m.val.t, q);
    assert [] + ([COLON] + Text(m.val.t, q)) == [COLON] + Text(m.val.t, q);
  }

  lemma ObjectSize(ms: seq<Member>)
    requires ms != [] && Compact(ms)
    ensures |Text(TObj([], ms), [])| == TotalSize(ms) + |ms| + 1
  {
    MembersSize(ms, []);
  }

  lemma {:induction false} TotalConcat(a: seq<Member>, b: seq<Member>)
    ensures TotalSize(a + b) == TotalSize(a) + TotalSize(b)
  {
    if a == [] {
      assert a + b == b;
    } else {
      assert (a + b)[1..] == a[1..] + b;
      TotalConcat(a[1..], b);
    }
  }

  /** One more member costs its own text and a comma. */
  lemma OneMore(a: seq<Member>, m: Member, b: seq<Member>)
    requires a != [] && Compact(a + [m] + b)
    ensures |Text(TObj([], a + [m] + b), [])| == |Text(TObj([], a + b), [])| + 1 + MemberSize(m)
  {
    assert forall x <- a + b :: x in a + [m] + b;
    ObjectSize(a + [m] + b);
    ObjectSize(a + b);
    TotalConcat(a + [m], b);
    TotalConcat(a, [m]);
    TotalConcat(a, b);
    assert [m][1..] == [];
  }

  // ---- Python ----

  lemma {:induction false} PyMembersConcat(a: Dict, b: Dict)
    ensures PyMembersOf(a + b) == PyMembersOf(a) + PyMembersOf(b)
  {
    if a == [] {
      assert a + b == b;
    } else {
      assert (a + b)[1..] == a[1..] + b;
      PyMembersConcat(a[1..], b);
    }
  }

  lemma {:induction false} PyCompact(d: Dict)
    ensures Compact(PyMembersOf(d))
  {
    if d != [] { PyCompact(d[1..]); }
  }

  lemma {:induction false} PyOneMore(a: Dict, e: Entry, b: Dict)
    requires a != []
    ensures |Dumps(PDict(a + [e] + b))| == |Dumps(PDict(a + b))| + 1 + MemberSize(PyMember(e))
  {
    PyMembersConcat(a + [e], b);
    PyMembersConcat(a, [e]);
    PyMembersConcat(a, b);
    PyCompact(a + [e] + b);
    assert PyMembersOf([e][1..]) == [];
    assert PyMembersOf([e]) == [PyMember(e)];
    OneMore(PyMembersOf(a), PyMember(e), PyMembersOf(b));
  }

  lemma PyOneSize(e: Entry)
    ensures |Dumps(PDict([e]))| == MemberSize(PyMember(e)) + 2
  {
    assert PyMembersOf([e][1..]) == [];
    assert PyMembersOf([e]) == [PyMember(e)] && [PyMember(e)][1..] == [];
    PyCompact([e]);
    ObjectSize([PyMember(e)]);
  }

  /** A character both printers write as itself. */
  predicate Plain(s: Str) { forall i | 0 <= i < |s| :: 0x20 <= s[i] <= 0x7E && s[i] != QUOTE && s[i] != BACKSLASH }

  /** A quoted Python string: 1 byte a plain character, at most 6 a 16-bit unit. */
  lemma {:induction false} PyQuotedSize(s: Str)
    ensures |s| + 2 <= |Dumps(PStr(s))| <= 12 * |s| + 2
    ensures Plain(s) ==> |Dumps(PStr(s))| == |s| + 2
  {
    if s == [] {
      assert PyItems(s) == [];
    } else {
      var us := UnitsOf(s[0]);
      PyQuotedSize(s[1..]);
      PyItemBack(us[0]);
      if s[0] < 0x10000 {
        TailOfCons(PyItem(us[0]), PyItems(s[1..]));
      } else {
        PyItemBack(us[1]);
        hide PyItem;
        TwoTexts(PyItem(us[0]), PyItem(us[1]), PyItems(s[1..]));
      }
    }
  }

  lemma TwoTexts(a: Item, b: Item, items: seq<Item>)
    ensures ItemsText([a, b] + items, []) == a.Text() + (b.Text() + ItemsText(items, []))
  {
    assert ([a, b] + items)[1..] == [b] + items;
    TailOfCons(b, items);
  }

  lemma PyQidSize(q: Str)
    ensures MemberSize(PyMember(Entry(K_QID, PStr(q)))) == 6 + |Dumps(PStr(q))|
  {
    assert Plain(K_QID) && |K_QID| == 3;
    PyQuotedSize(K_QID);
  }

  /** Echoing a query id lengthens an ANNOUNCE by 7 bytes and the quoted id, so a reply to a
      query is encoded iff the unsolicited ANNOUNCE leaves that much room. */
  lemma ReplySize(s: Service, id: Str, qid: Str, started: Option<Str>, p: Process)
    ensures var bare, reply := BuildAnnounce(s, id, None, started, p), BuildAnnounce(s, id, Some(qid), started, p);
      && |Dumps(PDict(reply))| == |Dumps(PDict(bare))| + 7 + |Dumps(PStr(qid))|
      && (Encoded(reply).Some? <==> |Dumps(PDict(bare))| + 7 + |Dumps(PStr(qid))| <= MAX_DATAGRAM)
  {
    var head, tail := Head(AboutService(s, id, started, p)), MetaPart(s.meta);
    assert |head| == 11;
    hide Head, Dumps, L;
    PyOneMore(head, Entry(K_QID, PStr(qid)), tail);
    PyQidSize(qid);
    assert head + [] + tail == head + tail;
  }

  /** A timestamp of the same length leaves the size alone. */
  lemma TimeSize(s: Service, id: Str, qid: Option<Str>, p: Process, now: Str)
    requires Plain(p.now) && Plain(now) && |p.now| == |now|
    ensures |Dumps(PDict(BuildAnnounce(s, id, qid, None, p)))| ==
            |Dumps(PDict(BuildAnnounce(s, id, qid, None, p.(now := now))))|
  {
    var h, h' := Head(AboutService(s, id, None, p)), Head(AboutService(s, id, None, p.(now := now)));
    var a := h[..10];
    var b := QidPart(qid) + MetaPart(s.meta);
    var e, e' := Entry(K_STARTED, PStr(p.now)), Entry(K_STARTED, PStr(now));
    assert h == a + [e] && h' == a + [e'];
    hide Head, Dumps, L;
    PyOneMore(a, e, b);
    PyOneMore(a, e', b);
    PyQuotedSize(p.now);
    PyQuotedSize(now);
    Assoc(a + [e], QidPart(qid), MetaPart(s.meta));
    Assoc(a + [e'], QidPart(qid), MetaPart(s.meta));
    EntrySize(e);
    EntrySize(e');
  }

  lemma EntrySize(e: Entry)
    ensures MemberSize(PyMember(e)) == |Dumps(PStr(e.key))| + 1 + |Dumps(e.val)|
  {
  }

  /** No reply to a 36-character query id makes `encode` raise iff the unsolicited ANNOUNCE,
      at any other time, is at most 1355 bytes long. */
  lemma UuidReplyFits(s: Service, id: Str, qid: Str, p: Process, now: Str)
    requires Plain(qid) && |qid| == 36
    requires Plain(p.now) && Plain(now) && |p.now| == |now|
    ensures Encoded(BuildAnnounce(s, id, Some(qid), None, p.(now := now))).Some? <==>
            |Dumps(PDict(BuildAnnounce(s, id, None, None, p)))| <= 1355
  {
    hide BuildAnnounce, Dumps;
    TimeSize(s, id, None, p, now);
    ReplySize(s, id, qid, None, p.(now := now));
    PyQuotedSize(qid);
  }

  // ---- C++ ----

  lemma {:induction false} CppMembersConcat(a: seq<Field>, b: seq<Field>, show: Show)
    ensures MembersOf(a + b, show) == MembersOf(a, show) + MembersOf(b, show)
  {
    if a == [] {
      assert a + b == b;
    } else {
      assert (a + b)[1..] == a[1..] + b;
      CppMembersConcat(a[1..], b, show);
    }
  }

  lemma {:induction false} CppCompact(o: seq<Field>, show: Show)
    ensures Compact(MembersOf(o, show))
  {
    if o != [] { CppCompact(o[1..], show); }
  }

  function CppMember(e: Field, show: Show): Member {
    Member([], ItemsOf(e.key), [], Elem([], TreeOf(e.val, show), []))
  }

  lemma CppOneMore(a: seq<Field>, e: Field, b: seq<Field>, show: Show)
    requires a != []
    ensures |Dump(Obj(a + [e] + b), show)| == |Dump(Obj(a + b), show)| + 1 + MemberSize(CppMember(e, show))
  {
    CppMembersConcat(a + [e], b, show);
    CppMembersConcat(a, [e], show);
    CppMembersConcat(a, b, show);
    CppCompact(a + [e] + b, show);
    assert MembersOf([e][1..], show) == [];
    assert MembersOf([e], show) == [CppMember(e, show)];
    OneMore(MembersOf(a, show), CppMember(e, show), MembersOf(b, show));
  }

  lemma CppQidSize(qid: Bytes, show: Show)
    ensures MemberSize(CppMember(Field(K_QID, Str(qid)), show)) == 6 + |Dump(Str(qid), show)|
  {
    assert Plain(K_QID) && |K_QID| == 3;
    CppPlainSize(K_QID);
  }

  /** The same 7 bytes and a quoted id for the C++ printer, which never refuses to send. */
  lemma CppReplySize(me: CppMessages.Self, qid: Bytes, show: Show)
    ensures |CppMessages.AnnounceText(me, Some(qid), show)| ==
            |CppMessages.AnnounceText(me, None, show)| + 7 + |Dump(Str(qid), show)|
  {
    var head, tail := CppMessages.HeadFieldsOf(me), CppMessages.MetaField(me.opt.meta);
    assert |head| == 11;
    hide CppMessages.HeadFieldsOf, CppMessages.MetaField, L, Dump, MemberSize, CppMember;
    CppOneMore(head, Field(K_QID, Str(qid)), tail, show);
    CppQidSize(qid, show);
    assert head + [] + tail == head + tail;
  }

  lemma {:induction false} CppPlainSize(s: Bytes)
    requires Plain(s)
    ensures |Text(TStr(ItemsOf(s)), [])| == |s| + 2
  {
    if s == [] {
      assert ItemsOf(s) == [];
    } else {
      CppPlainSize(s[1..]);
      TailOfCons(ItemOf(s[0]), ItemsOf(s[1..]));
    }
  }
}
