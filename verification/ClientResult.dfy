/** What `discover` returns: one record an id, the last accepted, in order. */
module ClientResult {
  import opened Bytes
  import opened PyJson
  import opened Protocol
  import opened ProtocolProofs
  import opened Ranking
  import opened Client
  import opened Utf8

  /** The records accepted in the loop's turns, in the order they arrived. */
  function Arrivals(c: Call, ticks: seq<Tick>, lib: Lib): Dict {
    if ticks == [] || ticks[0].now >= c.Deadline() then []
    else Arrival(c, ticks[0].wake, lib) + Arrivals(c, ticks[1..], lib)
  }

  function Arrival(c: Call, wake: Wake, lib: Lib): Dict {
    match wake
    case TimedOut => []
    case Got(datagram) => (match Accepted(c, datagram, lib) case None => [] case Some(e) => [e])
  }

  lemma {:induction false} FoundIsArrivals(c: Call, s: State, before: Dict, ticks: seq<Tick>, lib: Lib)
    requires s.found == FromPairs(before)
    ensures Loop(c, s, ticks, lib).found == FromPairs(before + Arrivals(c, ticks, lib))
    decreases |ticks|
  {
    hide Accepted, SetItem;
    if ticks == [] || ticks[0].now >= c.Deadline() {
      assert before + [] == before;
    } else {
      var more := Arrival(c, ticks[0].wake, lib);
      if more != [] { OneMorePair(before, more[0]); } else { assert before + [] == before; }
      FoundIsArrivals(c, Turn(c, s, ticks[0], lib), before + more, ticks[1..], lib);
      Assoc(before, more, Arrivals(c, ticks[1..], lib));
    }
  }

  lemma OneMorePair(d: Dict, e: Entry)
    ensures FromPairs(d + [e]) == SetItem(FromPairs(d), e.key, e.val)
  {
    assert (d + [e])[..|d|] == d;
  }

  // ---- the last of each id ----

  /** The value of the last entry with this key. */
  function LastOf(ps: Dict, key: Str): Option<PyVal> {
    if ps == [] then None
    else if ps[|ps| - 1].key == key then Some(ps[|ps| - 1].val)
    else LastOf(ps[..|ps| - 1], key)
  }

  lemma {:induction false} SetItemGet(d: Dict, key: Str, val: PyVal, k: Str)
    ensures Get(SetItem(d, key, val), k) == if k == key then Some(val) else Get(d, k)
    ensures forall e <- SetItem(d, key, val) :: e in d || e == Entry(key, val)
  {
    if d == [] {
      GetOne(Entry(key, val), k);
    } else if d[0].key != key {
      SetItemGet(d[1..], key, val, k);
      TailOfCons(d[0], SetItem(d[1..], key, val));
    } else {
      TailOfCons(Entry(key, val), d[1..]);
    }
  }

  lemma {:induction false} SetItemDistinct(d: Dict, key: Str, val: PyVal)
    requires DistinctKeys(d)
    ensures DistinctKeys(SetItem(d, key, val))
  {
    if d != [] && d[0].key != key {
      assert forall i | 0 <= i < |d[1..]| :: d[1..][i] == d[i + 1];
      SetItemDistinct(d[1..], key, val);
      SetItemGet(d[1..], key, val, key);
      var r := SetItem(d[1..], key, val);
      forall j | 0 <= j < |r| ensures r[j].key != d[0].key {
        assert r[j] in r;
        if r[j] in d[1..] { var i :| 0 <= i < |d[1..]| && d[1..][i] == r[j]; }
      }
    }
  }

  /** A dict built from pairs has each key once, with its last value. */
  lemma {:induction false} LastWins(ps: Dict, key: Str)
    ensures DistinctKeys(FromPairs(ps)) && Get(FromPairs(ps), key) == LastOf(ps, key)
    ensures forall e <- FromPairs(ps) :: e in ps
  {
    if ps != [] {
      var n := |ps| - 1;
      LastWins(ps[..n], key);
      SetItemDistinct(FromPairs(ps[..n]), ps[n].key, ps[n].val);
      SetItemGet(FromPairs(ps[..n]), ps[n].key, ps[n].val, key);
    }
  }

  // ---- the list returned ----

  /** Entries as `discover` makes them: a record under its own id. */
  predicate Keyed(ps: Dict) { forall e <- ps :: e.val.PDict? && IdOf(e.val.d) == e.key }

  function Records(ps: Dict): seq<Dict> { Sorted(Values(FromPairs(ps))) }

  lemma {:induction false} ArrivalsKeyed(c: Call, ticks: seq<Tick>, lib: Lib)
    ensures Keyed(Arrivals(c, ticks, lib))
  {
    if ticks != [] && ticks[0].now < c.Deadline() {
      ArrivalsKeyed(c, ticks[1..], lib);
      AcceptedKeyed(c, ticks[0].wake, lib);
      hide Accepted, Arrival, IdOf;
      assert forall e <- Arrivals(c, ticks, lib) ::
               e in Arrival(c, ticks[0].wake, lib) || e in Arrivals(c, ticks[1..], lib);
    }
  }

  lemma AcceptedKeyed(c: Call, wake: Wake, lib: Lib)
    ensures Keyed(Arrival(c, wake, lib))
  {
    hide Decoded, MatchesFilter, Get, IdOf;
  }

  lemma {:induction false} ValuesCount(d: Dict, m: Dict)
    requires DistinctKeys(d) && Keyed(d)
    ensures multiset(Values(d))[m] == if Get(d, IdOf(m)) == Some(PDict(m)) then 1 else 0
  {
    hide IdOf;
    if d != [] {
      var r := d[1..];
      assert DistinctKeys(r) && Keyed(r) by { assert forall i | 0 <= i < |r| :: r[i] == d[i + 1]; }
      ValuesCount(r, m);
      assert d[0] in d;
      var first := d[0].val.d;
      assert Values(d) == [first] + Values(r);
      assert multiset(Values(d)) == multiset{first} + multiset(Values(r));
      if IdOf(m) == d[0].key {
        assert !Has(r, d[0].key) by { assert forall i | 0 <= i < |r| :: r[i] == d[i + 1]; }
        GetAbsent(r, d[0].key);
      }
    }
  }

  /** A record is in the list once if it is the last accepted for its id, and otherwise not at
      all; the list is in order. */
  lemma RecordsAre(ps: Dict, m: Dict)
    requires Keyed(ps)
    ensures multiset(Records(ps))[m] == if LastOf(ps, IdOf(m)) == Some(PDict(m)) then 1 else 0
    ensures Ordered(Records(ps))
  {
    hide IdOf, Ordered, Get, Sorted, Values, FromPairs;
    LastWins(ps, IdOf(m));
    assert Keyed(FromPairs(ps));
    ValuesCount(FromPairs(ps), m);
    SortedOrdered(Values(FromPairs(ps)));
  }

  /** The list holds the last record of each id once and nothing else. */
  ghost predicate LatestOfEach(records: seq<Dict>, ps: Dict) {
    forall m: Dict :: multiset(records)[m] == (if LastOf(ps, IdOf(m)) == Some(PDict(m)) then 1 else 0)
  }

  /** What one call returns. */
  lemma CallResult(c: Call, ticks: seq<Tick>, lib: Lib, m: Dict)
    ensures var ps := Arrivals(c, ticks, lib);
      && Sorted(Values(Loop(c, Start(c), ticks, lib).found)) == Records(ps)
      && multiset(Records(ps))[m] == (if LastOf(ps, IdOf(m)) == Some(PDict(m)) then 1 else 0)
      && Ordered(Records(ps))
  {
    FoundIsArrivals(c, Start(c), [], ticks, lib);
    assert [] + Arrivals(c, ticks, lib) == Arrivals(c, ticks, lib);
    ArrivalsKeyed(c, ticks, lib);
    RecordsAre(Arrivals(c, ticks, lib), m);
  }

  /** Whoever sends an acceptable reply that is received before the deadline is in the list. */
  lemma NoneForgotten(c: Call, ticks: seq<Tick>, lib: Lib, k: nat) returns (m: Dict)
    requires k < Turns(c, ticks) && ticks[k].wake.Got? && Accepted(c, ticks[k].wake.datagram, lib).Some?
    ensures m in Sorted(Values(Loop(c, Start(c), ticks, lib).found))
    ensures IdOf(m) == Accepted(c, ticks[k].wake.datagram, lib).value.key
  {
    var ps, e := Arrivals(c, ticks, lib), Accepted(c, ticks[k].wake.datagram, lib).value;
    hide Accepted, IdOf, Sorted, Values;
    Arrived(c, ticks, lib, k);
    ArrivalsKeyed(c, ticks, lib);
    LastExists(ps, e);
    m := LastOf(ps, e.key).value.d;
    CallResult(c, ticks, lib, m);
    assert m in multiset(Records(ps));
  }

  lemma {:induction false} Arrived(c: Call, ticks: seq<Tick>, lib: Lib, k: nat)
    requires k < Turns(c, ticks) && ticks[k].wake.Got? && Accepted(c, ticks[k].wake.datagram, lib).Some?
    ensures Accepted(c, ticks[k].wake.datagram, lib).value in Arrivals(c, ticks, lib)
  {
    hide Accepted;
    if k > 0 { Arrived(c, ticks[1..], lib, k - 1); }
  }

  lemma {:induction false} CameFrom(c: Call, ticks: seq<Tick>, lib: Lib, e: Entry) returns (k: nat)
    requires e in Arrivals(c, ticks, lib)
    ensures k < Turns(c, ticks) && ticks[k].wake.Got? && Accepted(c, ticks[k].wake.datagram, lib) == Some(e)
  {
    hide Accepted;
    if e in Arrival(c, ticks[0].wake, lib) {
      k := 0;
    } else {
      k := CameFrom(c, ticks[1..], lib, e);
      k := k + 1;
    }
  }

  /** Conversely every record in the list was accepted in some turn, from one datagram. */
  lemma NoneInvented(c: Call, ticks: seq<Tick>, lib: Lib, m: Dict) returns (k: nat)
    requires m in Sorted(Values(Loop(c, Start(c), ticks, lib).found))
    ensures k < Turns(c, ticks) && ticks[k].wake.Got?
    ensures Accepted(c, ticks[k].wake.datagram, lib) == Some(Entry(IdOf(m), PDict(m)))
  {
    var ps := Arrivals(c, ticks, lib);
    CallResult(c, ticks, lib, m);
    hide Accepted, IdOf, Sorted, Values, Loop, Arrivals;
    assert m in multiset(Records(ps));
    LastIn(ps, IdOf(m));
    k := CameFrom(c, ticks, lib, Entry(IdOf(m), PDict(m)));
  }

  lemma {:induction false} LastExists(ps: Dict, e: Entry)
    requires e in ps && Keyed(ps)
    ensures LastOf(ps, e.key).Some? && LastOf(ps, e.key).value.PDict? && IdOf(LastOf(ps, e.key).value.d) == e.key
    ensures Entry(e.key, LastOf(ps, e.key).value) in ps
  {
    hide IdOf;
    var n := |ps| - 1;
    assert ps == ps[..n] + [ps[n]];
    if ps[n].key != e.key {
      assert e in ps[..n];
      LastExists(ps[..n], e);
    }
  }

  // ---- order and repetition of the arrivals ----

  /** Receiving the latest record of an id again changes nothing. */
  lemma AgainIsNothing(ps: Dict, e: Entry)
    requires LastOf(ps, e.key) == Some(e.val)
    ensures FromPairs(ps + [e]) == FromPairs(ps)
  {
    OneMorePair(ps, e);
    LastWins(ps, e.key);
    SetSame(FromPairs(ps), e.key, e.val);
  }

  lemma {:induction false} SetSame(d: Dict, key: Str, val: PyVal)
    requires Get(d, key) == Some(val)
    ensures SetItem(d, key, val) == d
  {
    HeadTail(d);
    if d[0].key != key { SetSame(d[1..], key, val); }
  }

  /** All that arrived for one id is the same record. */
  predicate Consistent(ps: Dict) { forall e, f | e in ps && f in ps :: e.key == f.key ==> e == f }

  /** Different ids have different hosts or ports. */
  predicate Separate(ps: Dict) {
    forall e, f | e in ps && f in ps && e.val.PDict? && f.val.PDict? ::
      e.key != f.key ==> RankOf(e.val.d) != RankOf(f.val.d)
  }

  lemma SameLast(ps: Dict, qs: Dict, key: Str)
    requires Consistent(ps) && Keyed(ps) && Keyed(qs) && forall e :: e in ps <==> e in qs
    ensures LastOf(ps, key) == LastOf(qs, key)
  {
    hide IdOf;
    if LastOf(ps, key).Some? { LastIn(ps, key); LastExists(qs, Entry(key, LastOf(ps, key).value)); }
    if LastOf(qs, key).Some? { LastIn(qs, key); LastExists(ps, Entry(key, LastOf(qs, key).value)); }
  }

  lemma {:induction false} LastIn(ps: Dict, key: Str)
    requires LastOf(ps, key).Some?
    ensures Entry(key, LastOf(ps, key).value) in ps
  {
    var n := |ps| - 1;
    if ps[n].key == key { assert ps[n] in ps; } else { LastIn(ps[..n], key); }
  }

  /** The list does not depend on the order of the arrivals or on how often each came. */
  lemma OrderInsensitive(ps: Dict, qs: Dict)
    requires Keyed(ps) && Keyed(qs) && Consistent(ps) && Separate(ps) && forall e :: e in ps <==> e in qs
    ensures Records(ps) == Records(qs)
  {
    var a, b := Records(ps), Records(qs);
    forall m: Dict ensures multiset(a)[m] == multiset(b)[m] {
      RecordsAre(ps, m);
      RecordsAre(qs, m);
      SameLast(ps, qs, IdOf(m));
    }
    RecordsAre(ps, []);
    RecordsAre(qs, []);
    assert multiset(a) == multiset(b);
    RecordsSeparate(ps);
    OneOrder(a, b);
  }

  /** Two calls to which the same replies came, in any order and any number of times, whenever
      each began and whatever its query, return the same list. */
  lemma CallsAlike(c: Call, ticks: seq<Tick>, c': Call, ticks': seq<Tick>, lib: Lib)
    requires Consistent(Arrivals(c, ticks, lib)) && Separate(Arrivals(c, ticks, lib))
    requires forall e :: e in Arrivals(c, ticks, lib) <==> e in Arrivals(c', ticks', lib)
    ensures Sorted(Values(Loop(c, Start(c), ticks, lib).found)) ==
            Sorted(Values(Loop(c', Start(c'), ticks', lib).found))
  {
    CallResult(c, ticks, lib, []);
    CallResult(c', ticks', lib, []);
    ArrivalsKeyed(c, ticks, lib);
    ArrivalsKeyed(c', ticks', lib);
    hide Arrivals, Consistent, Separate, Keyed, Records, Sorted, Values, Loop;
    OrderInsensitive(Arrivals(c, ticks, lib), Arrivals(c', ticks', lib));
  }

  lemma RecordsSeparate(ps: Dict)
    requires Keyed(ps) && Separate(ps)
    ensures DistinctRanks(Records(ps))
  {
    var a := Records(ps);
    hide IdOf, RankOf, Sorted, Records;
    forall i, j | 0 <= i < j < |a| ensures RankOf(a[i]) != RankOf(a[j]) {
      RecordEntry(ps, a, i);
      RecordEntry(ps, a, j);
      if IdOf(a[i]) == IdOf(a[j]) {
        assert a[i] == a[j];
        Twice(a, i, j);
      }
    }
  }

  lemma Twice<T>(a: seq<T>, i: nat, j: nat)
    requires i < j < |a| && a[i] == a[j]
    ensures multiset(a)[a[i]] >= 2
  {
    assert a == a[..j] + a[j..];
    assert a[..j][i] in multiset(a[..j]) && a[j..][0] in multiset(a[j..]);
  }

  lemma RecordEntry(ps: Dict, a: seq<Dict>, i: nat)
    requires Keyed(ps) && a == Records(ps) && i < |a|
    ensures Entry(IdOf(a[i]), PDict(a[i])) in ps && LastOf(ps, IdOf(a[i])) == Some(PDict(a[i]))
    ensures multiset(a)[a[i]] == 1
  {
    RecordsAre(ps, a[i]);
    assert a[i] in multiset(a);
    LastIn(ps, IdOf(a[i]));
  }
}
