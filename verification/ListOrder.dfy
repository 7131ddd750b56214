/** The order of the list `discover` returns, in terms of the fields of its records. */
module ListOrder {
  import opened Bytes
  import opened PyJson
  import opened Protocol
  import opened Client
  import opened ClientResult
  import opened Ranking
  import opened Validation
  import opened Utf8

  /** One name sorts before another: they part at some point, where it ends or has the smaller code
      point. */
  ghost predicate Before(a: Str, b: Str) {
    exists n: nat :: n <= |a| && n < |b| && a[..n] == b[..n] && (n == |a| || a[n] < b[n])
  }

  lemma FirstAlike(a: Str, b: Str, n: nat)
    requires n <= |a| && n <= |b| && a[..n] == b[..n]
    ensures n == 0 || a[0] == b[0]
  {
    if n > 0 { assert a[0] == a[..n][0] && b[0] == b[..n][0]; }
  }

  /** Whether or not they part before, a first code point the two share decides nothing. */
  lemma BeforeTail(a: Str, b: Str)
    requires a != [] && b != [] && a[0] == b[0]
    ensures Before(a, b) <==> Before(a[1..], b[1..])
  {
    var s, t := a[1..], b[1..];
    if Before(s, t) {
      var n: nat :| n <= |s| && n < |t| && s[..n] == t[..n] && (n == |s| || s[n] < t[n]);
      assert a[..n + 1] == [a[0]] + s[..n] && b[..n + 1] == [b[0]] + t[..n];
      assert Before(a, b);
    }
    if Before(a, b) {
      var n: nat :| n <= |a| && n < |b| && a[..n] == b[..n] && (n == |a| || a[n] < b[n]);
      assert n > 0 && s[..n - 1] == a[..n][1..] && t[..n - 1] == b[..n][1..];
      assert Before(s, t);
    }
  }

  lemma BeforeHead(a: Str, b: Str)
    requires a == [] || b == [] || a[0] != b[0]
    ensures Before(a, b) <==> b != [] && (a == [] || a[0] < b[0])
  {
    if b != [] && (a == [] || a[0] < b[0]) { assert a[..0] == b[..0] && Before(a, b); }
    if Before(a, b) {
      var n: nat :| n <= |a| && n < |b| && a[..n] == b[..n] && (n == |a| || a[n] < b[n]);
      FirstAlike(a, b, n);
    }
  }

  lemma {:induction false} BeforeIff(a: Str, b: Str)
    ensures StrLeq(a, b) <==> a == b || Before(a, b)
  {
    if a == [] || b == [] || a[0] != b[0] {
      BeforeHead(a, b);
      hide Before;
    } else {
      BeforeTail(a, b);
      hide Before;
      BeforeIff(a[1..], b[1..]);
      HeadTail(a);
      HeadTail(b);
    }
  }

  /** Every record in the list is an ANNOUNCE with all its fields. */
  lemma RecordAnnounces(c: Call, ticks: seq<Tick>, lib: Lib, m: Dict) returns (a: About)
    requires m in Sorted(Values(Loop(c, Start(c), ticks, lib).found))
    ensures Announces(m, a)
  {
    var k := NoneInvented(c, ticks, lib, m);
    a := AcceptedAbout(c, ticks[k].wake.datagram, lib, IdOf(m), m);
  }

  lemma AcceptedAbout(c: Call, data: Bytes, lib: Lib, id: Str, m: Dict) returns (a: About)
    requires Accepted(c, data, lib) == Some(Entry(id, PDict(m)))
    ensures Announces(m, a)
  {
    var cut := data[..Min(|data|, MAX_DATAGRAM + 1)];
    DecodeIff(cut, m);
    Names();
    hide L, Get, Decoded, Loads, MatchesFilter, IdOf, Announces, Extras;
    NotDiscovers(m);
    a :| Announces(m, a);
  }

  lemma NotDiscovers(m: Dict)
    ensures Discovers(m) ==> Get(m, K_TYPE) == Some(PStr(DISCOVER))
  {
    hide L, Get, AsksFor;
  }

  /** For the records at `i` and `j`, `i < j`: if their hosts are the same the port of the first is at
      most that of the second, and otherwise its host sorts before. */
  lemma InOrder(c: Call, ticks: seq<Tick>, lib: Lib, i: nat, j: nat) returns (a: About, b: About)
    requires i < j < |Sorted(Values(Loop(c, Start(c), ticks, lib).found))|
    ensures var records := Sorted(Values(Loop(c, Start(c), ticks, lib).found));
      Announces(records[i], a) && Announces(records[j], b)
    ensures if a.host == b.host then a.port <= b.port else Before(a.host, b.host)
  {
    var records := Sorted(Values(Loop(c, Start(c), ticks, lib).found));
    hide Loop, Values, Sorted, Announces, RankOf, Leq;
    a := RecordAnnounces(c, ticks, lib, records[i]);
    b := RecordAnnounces(c, ticks, lib, records[j]);
    CallResult(c, ticks, lib, []);
    assert Leq(RankOf(records[i]), RankOf(records[j]));
    RankIs(records[i], a);
    RankIs(records[j], b);
    LeqIs(RankOf(records[i]), RankOf(records[j]));
  }

  lemma RankIs(m: Dict, a: About)
    requires Announces(m, a)
    ensures RankOf(m) == Rank(a.host, a.port)
  {
    hide L, Get;
  }

  lemma LeqIs(r: Rank, s: Rank)
    requires Leq(r, s)
    ensures if r.host == s.host then r.port <= s.port else Before(r.host, s.host)
  {
    BeforeIff(r.host, s.host);
  }

  // ---- ties ----

  lemma {:induction false} ValuesAt(d: Dict)
    requires forall e <- d :: e.val.PDict?
    ensures |Values(d)| == |d| && forall i | 0 <= i < |d| :: Values(d)[i] == d[i].val.d
  {
    if d != [] {
      ValuesAt(d[1..]);
      assert d[0] in d;
      TailOfCons(d[0].val.d, Values(d[1..]));
    }
  }

  /** `key` comes up in `ps` before `other` does. */
  ghost predicate First(ps: Dict, key: Str, other: Str) {
    exists x: nat :: x < |ps| && ps[x].key == key && forall y | 0 <= y < |ps| && ps[y].key == other :: x < y
  }

  lemma {:induction false} SetItemKeys(d: Dict, key: Str, val: PyVal)
    ensures |SetItem(d, key, val)| == if Has(d, key) then |d| else |d| + 1
    ensures forall i | 0 <= i < |d| :: SetItem(d, key, val)[i].key == d[i].key
    ensures !Has(d, key) ==> SetItem(d, key, val)[|d|] == Entry(key, val)
  {
    SetItemSize(d, key, val);
    if d != [] && d[0].key != key {
      SetItemKeys(d[1..], key, val);
      TailOfCons(d[0], SetItem(d[1..], key, val));
      assert Has(d, key) <==> Has(d[1..], key) by {
        if Has(d, key) {
          var i :| 0 <= i < |d| && d[i].key == key;
          assert d[1..][i - 1] == d[i];
        }
        if Has(d[1..], key) {
          var i :| 0 <= i < |d[1..]| && d[1..][i].key == key;
          assert d[i + 1] == d[1..][i];
        }
      }
    }
  }

  lemma {:induction false} KeysIn(ps: Dict)
    ensures forall key :: Has(FromPairs(ps), key) <==> Has(ps, key)
  {
    if ps != [] {
      var n := |ps| - 1;
      var front, e := ps[..n], ps[n];
      KeysIn(front);
      SetItemKeys(FromPairs(front), e.key, e.val);
      hide FromPairs;
      forall key ensures Has(SetItem(FromPairs(front), e.key, e.val), key) <==> Has(ps, key) {
        HasSet(FromPairs(front), e.key, e.val, key);
        HasSnoc(front, e, key);
      }
      assert ps == front + [e];
      assert FromPairs(ps) == SetItem(FromPairs(front), e.key, e.val) by { OneMorePair(front, e); }
    }
  }

  lemma HasSet(d: Dict, k: Str, v: PyVal, key: Str)
    ensures Has(SetItem(d, k, v), key) <==> key == k || Has(d, key)
  {
    SetItemKeys(d, k, v);
    var t := SetItem(d, k, v);
    if Has(d, key) {
      var i :| 0 <= i < |d| && d[i].key == key;
      assert t[i].key == key;
    }
    if key == k {
      if Has(d, k) {
        var i :| 0 <= i < |d| && d[i].key == k;
        assert t[i].key == k;
      } else {
        assert t[|d|].key == k;
      }
    }
  }

  lemma HasSnoc(d: Dict, e: Entry, key: Str)
    ensures Has(d + [e], key) <==> key == e.key || Has(d, key)
  {
    var t := d + [e];
    assert t[|d|] == e && forall i | 0 <= i < |d| :: t[i] == d[i];
  }

  lemma FirstSnoc(ps: Dict, e: Entry, key: Str, other: Str)
    requires First(ps, key, other)
    ensures First(ps + [e], key, other)
  {
    var qs := ps + [e];
    var x: nat :| x < |ps| && ps[x].key == key && forall y | 0 <= y < |ps| && ps[y].key == other :: x < y;
    assert qs[x].key == key && forall y | 0 <= y < |ps| :: qs[y] == ps[y];
  }

  lemma FirstNew(ps: Dict, e: Entry, key: Str)
    requires Has(ps, key) && !Has(ps, e.key)
    ensures First(ps + [e], key, e.key)
  {
    var qs := ps + [e];
    var x :| 0 <= x < |ps| && ps[x].key == key;
    assert qs[x].key == key && forall y | 0 <= y < |ps| :: qs[y] == ps[y] && ps[y].key != e.key;
  }

  /** The key at `i` of a dict built from one entry more. */
  lemma KeyAt(ps: Dict, e: Entry, i: nat)
    requires i < |FromPairs(ps + [e])|
    ensures var d := FromPairs(ps);
      if i < |d| then FromPairs(ps + [e])[i].key == d[i].key && Has(ps, d[i].key)
      else i == |d| && FromPairs(ps + [e])[i].key == e.key && !Has(ps, e.key)
  {
    var d := FromPairs(ps);
    OneMorePair(ps, e);
    SetItemKeys(d, e.key, e.val);
    KeysIn(ps);
    hide FromPairs, SetItem;
    if i < |d| { assert Has(d, d[i].key); }
  }

  /** A dict keeps its keys in the order in which they first came. */
  lemma {:induction false} KeyOrder(ps: Dict, a: nat, b: nat)
    requires a < b < |FromPairs(ps)|
    ensures First(ps, FromPairs(ps)[a].key, FromPairs(ps)[b].key)
  {
    var n := |ps| - 1;
    var front, e := ps[..n], ps[n];
    hide FromPairs, First, Has;
    assert ps == front + [e];
    KeyAt(front, e, a);
    KeyAt(front, e, b);
    var d := FromPairs(front);
    if b < |d| {
      KeyOrder(front, a, b);
      FirstSnoc(front, e, d[a].key, d[b].key);
    } else {
      FirstNew(front, e, d[a].key);
    }
  }

  /** Of two elements that a sequence and its part with one rank hold in one order, in the other too. */
  lemma {:induction false} RankPositions(s: seq<Dict>, r: Rank, a: nat, b: nat) returns (x: nat, y: nat)
    requires a < b < |WithRank(s, r)|
    ensures x < y < |s| && s[x] == WithRank(s, r)[a] && s[y] == WithRank(s, r)[b]
  {
    hide RankOf;
    if RankOf(s[0]) != r {
      assert WithRank(s, r) == [] + WithRank(s[1..], r) == WithRank(s[1..], r);
      x, y := RankPositions(s[1..], r, a, b);
    } else {
      TailOfCons(s[0], WithRank(s[1..], r));
      if a == 0 {
        x := 0;
        y := RankPosition(s[1..], r, b - 1);
        y := y + 1;
        return;
      }
      x, y := RankPositions(s[1..], r, a - 1, b - 1);
    }
    x, y := x + 1, y + 1;
  }

  lemma {:induction false} RankPosition(s: seq<Dict>, r: Rank, a: nat) returns (x: nat)
    requires a < |WithRank(s, r)|
    ensures x < |s| && s[x] == WithRank(s, r)[a]
  {
    hide RankOf;
    if RankOf(s[0]) != r {
      assert WithRank(s, r) == [] + WithRank(s[1..], r) == WithRank(s[1..], r);
      x := RankPosition(s[1..], r, a);
    } else {
      TailOfCons(s[0], WithRank(s[1..], r));
      if a == 0 { return 0; }
      x := RankPosition(s[1..], r, a - 1);
    }
    x := x + 1;
  }

  /** And where the elements of one rank stand in that part. */
  lemma {:induction false} InRank(s: seq<Dict>, r: Rank, i: nat, j: nat) returns (a: nat, b: nat)
    requires i < j < |s| && RankOf(s[i]) == r && RankOf(s[j]) == r
    ensures a < b < |WithRank(s, r)| && WithRank(s, r)[a] == s[i] && WithRank(s, r)[b] == s[j]
  {
    hide RankOf;
    if i > 0 {
      a, b := InRank(s[1..], r, i - 1, j - 1);
      if RankOf(s[0]) == r {
        TailOfCons(s[0], WithRank(s[1..], r));
        a, b := a + 1, b + 1;
      } else {
        assert WithRank(s, r) == [] + WithRank(s[1..], r) == WithRank(s[1..], r);
      }
    } else {
      a := 0;
      b := OneInRank(s[1..], r, j - 1);
      TailOfCons(s[0], WithRank(s[1..], r));
      b := b + 1;
    }
  }

  lemma {:induction false} OneInRank(s: seq<Dict>, r: Rank, j: nat) returns (b: nat)
    requires j < |s| && RankOf(s[j]) == r
    ensures b < |WithRank(s, r)| && WithRank(s, r)[b] == s[j]
  {
    hide RankOf;
    if j == 0 { return 0; }
    b := OneInRank(s[1..], r, j - 1);
    if RankOf(s[0]) == r {
      TailOfCons(s[0], WithRank(s[1..], r));
      b := b + 1;
    } else {
      assert WithRank(s, r) == [] + WithRank(s[1..], r) == WithRank(s[1..], r);
    }
  }

  predicate AcceptedAt(c: Call, ticks: seq<Tick>, lib: Lib, n: nat) {
    n < Turns(c, ticks) && ticks[n].wake.Got? && Accepted(c, ticks[n].wake.datagram, lib).Some?
  }

  /** The turn in which an arrival came, and that all accepted until then are among the arrivals. */
  lemma {:induction false} TurnOf(c: Call, ticks: seq<Tick>, lib: Lib, x: nat) returns (k: nat)
    requires x < |Arrivals(c, ticks, lib)|
    ensures AcceptedAt(c, ticks, lib, k)
    ensures Accepted(c, ticks[k].wake.datagram, lib) == Some(Arrivals(c, ticks, lib)[x])
    ensures forall n: nat | n <= k && AcceptedAt(c, ticks, lib, n) ::
              Accepted(c, ticks[n].wake.datagram, lib).value in Arrivals(c, ticks, lib)[..x + 1]
  {
    hide Accepted;
    var first, rest := Arrival(c, ticks[0].wake, lib), Arrivals(c, ticks[1..], lib);
    if x < |first| {
      k := 0;
    } else {
      k := TurnOf(c, ticks[1..], lib, x - |first|);
      assert Arrivals(c, ticks, lib)[..x + 1] == first + rest[..x + 1 - |first|];
      forall n: nat | n <= k + 1 && AcceptedAt(c, ticks, lib, n)
        ensures Accepted(c, ticks[n].wake.datagram, lib).value in Arrivals(c, ticks, lib)[..x + 1]
      {
        if n > 0 { assert AcceptedAt(c, ticks[1..], lib, n - 1) && ticks[n] == ticks[1..][n - 1]; }
      }
      k := k + 1;
    }
  }

  /** `key` was accepted in turn `n`. */
  predicate AcceptedIn(c: Call, ticks: seq<Tick>, lib: Lib, n: nat, key: Str) {
    AcceptedAt(c, ticks, lib, n) && Accepted(c, ticks[n].wake.datagram, lib).value.key == key
  }

  /** What came first among the arrivals came in an earlier turn. */
  lemma FirstTurn(c: Call, ticks: seq<Tick>, lib: Lib, key: Str, other: Str) returns (k: nat)
    requires First(Arrivals(c, ticks, lib), key, other)
    ensures AcceptedIn(c, ticks, lib, k, key) && forall n: nat | AcceptedIn(c, ticks, lib, n, other) :: k < n
  {
    var ps := Arrivals(c, ticks, lib);
    hide Accepted, Arrivals;
    var x: nat :| x < |ps| && ps[x].key == key && forall y | 0 <= y < |ps| && ps[y].key == other :: x < y;
    k := TurnOf(c, ticks, lib, x);
    assert forall e <- ps[..x + 1] :: e.key != other;
  }

  /** Two values of one rank that sorting leaves in one order were in that order before. */
  lemma Positions(values: seq<Dict>, i: nat, j: nat) returns (a: nat, b: nat)
    requires i < j < |Sorted(values)| && RankOf(Sorted(values)[i]) == RankOf(Sorted(values)[j])
    ensures a < b < |values| && values[a] == Sorted(values)[i] && values[b] == Sorted(values)[j]
  {
    hide RankOf, Sorted, WithRank;
    var r := RankOf(Sorted(values)[i]);
    SortedStable(values, r);
    a, b := InRank(Sorted(values), r, i, j);
    a, b := RankPositions(values, r, a, b);
  }

  /** The same of the records of a dict of arrivals. */
  lemma FirstRecord(ps: Dict, i: nat, j: nat)
    requires Keyed(ps) && i < j < |Records(ps)| && RankOf(Records(ps)[i]) == RankOf(Records(ps)[j])
    ensures First(ps, IdOf(Records(ps)[i]), IdOf(Records(ps)[j]))
  {
    var found := FromPairs(ps);
    LastWins(ps, []);
    hide RankOf, Sorted, Values, FromPairs, IdOf;
    assert forall e <- found :: e.val.PDict? && IdOf(e.val.d) == e.key;
    var a, b := Positions(Values(found), i, j);
    ValuesAt(found);
    KeyOrder(ps, a, b);
    assert found[a] in found && found[b] in found;
  }

  /** Two records of one host and port stand in the order in which their ids first came: the first
      was accepted under its id in some turn before any in which the second was. */
  lemma TiesByArrival(c: Call, ticks: seq<Tick>, lib: Lib, i: nat, j: nat) returns (k: nat)
    requires i < j < |Sorted(Values(Loop(c, Start(c), ticks, lib).found))|
    requires var records := Sorted(Values(Loop(c, Start(c), ticks, lib).found));
      && Get(records[i], L("host")) == Get(records[j], L("host"))
      && Get(records[i], L("port")) == Get(records[j], L("port"))
    ensures var records := Sorted(Values(Loop(c, Start(c), ticks, lib).found));
      && AcceptedIn(c, ticks, lib, k, IdOf(records[i]))
      && forall n: nat | AcceptedIn(c, ticks, lib, n, IdOf(records[j])) :: k < n
  {
    var ps := Arrivals(c, ticks, lib);
    CallResult(c, ticks, lib, []);
    ArrivalsKeyed(c, ticks, lib);
    hide AcceptedIn, Loop, Arrivals, RankOf, Records, Sorted, Values, IdOf, L, Get, LastOf, Keyed;
    SameRank(Records(ps)[i], Records(ps)[j]);
    FirstRecord(ps, i, j);
    k := FirstTurn(c, ticks, lib, IdOf(Records(ps)[i]), IdOf(Records(ps)[j]));
  }

  lemma SameRank(m: Dict, n: Dict)
    requires Get(m, L("host")) == Get(n, L("host")) && Get(m, L("port")) == Get(n, L("port"))
    ensures RankOf(m) == RankOf(n)
  {
    hide L, Get;
  }
}
