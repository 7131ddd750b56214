/** The order of the records `discover` returns: Python's stable `sorted` by host, then port. */
module Ranking {
  import opened Bytes
  import opened PyJson
  import opened Protocol
  import opened Utf8

  datatype Rank = Rank(host: Str, port: int)

  /** `(m.get("host", ""), m.get("port", 0))` */
  function RankOf(msg: Dict): Rank {
    Rank(match Get(msg, K_HOST) case Some(PStr(host)) => host case _ => [],
         match Get(msg, K_PORT) case Some(PInt(port)) => port case _ => 0)
  }

  /** Python's order on strings, by code point. */
  predicate StrLeq(a: Str, b: Str) {
    a == [] || (b != [] && (a[0] < b[0] || (a[0] == b[0] && StrLeq(a[1..], b[1..]))))
  }

  predicate Leq(a: Rank, b: Rank) {
    StrLeq(a.host, b.host) && (a.host == b.host ==> a.port <= b.port)
  }

  /** Into a sorted list, after every record that does not rank above it. */
  function Insert(m: Dict, s: seq<Dict>): seq<Dict> {
    if s == [] then [m]
    else if Leq(RankOf(s[0]), RankOf(m)) then [s[0]] + Insert(m, s[1..])
    else [m] + s
  }

  function Sorted(s: seq<Dict>): seq<Dict> {
    if s == [] then [] else Insert(s[|s| - 1], Sorted(s[..|s| - 1]))
  }

  predicate Ordered(s: seq<Dict>) {
    forall i, j | 0 <= i < j < |s| :: Leq(RankOf(s[i]), RankOf(s[j]))
  }

  // ---- ranks are totally ordered ----

  lemma {:induction false} StrTotal(a: Str, b: Str)
    ensures StrLeq(a, b) || StrLeq(b, a)
    ensures StrLeq(a, b) && StrLeq(b, a) ==> a == b
  {
    if a != [] && b != [] && a[0] == b[0] {
      StrTotal(a[1..], b[1..]);
      HeadTail(a);
      HeadTail(b);
    }
  }

  lemma {:induction false} StrTransitive(a: Str, b: Str, c: Str)
    requires StrLeq(a, b) && StrLeq(b, c)
    ensures StrLeq(a, c)
  {
    if a != [] && a[0] == b[0] && b[0] == c[0] { StrTransitive(a[1..], b[1..], c[1..]); }
  }

  lemma Total(a: Rank, b: Rank)
    ensures Leq(a, b) || Leq(b, a)
    ensures Leq(a, b) && Leq(b, a) ==> a == b
  {
    StrTotal(a.host, b.host);
  }

  lemma Transitive(a: Rank, b: Rank, c: Rank)
    requires Leq(a, b) && Leq(b, c)
    ensures Leq(a, c)
  {
    StrTransitive(a.host, b.host, c.host);
    StrTotal(a.host, b.host);
  }

  // ---- sorting ----

  lemma {:induction false} InsertSame(m: Dict, s: seq<Dict>)
    ensures multiset(Insert(m, s)) == multiset(s) + multiset{m}
  {
    hide RankOf, Leq;
    if s != [] {
      HeadTail(s);
      if Leq(RankOf(s[0]), RankOf(m)) { InsertSame(m, s[1..]); }
    }
  }

  lemma FirstLeq(m: Dict, s: seq<Dict>, t: seq<Dict>)
    requires s != [] && Ordered(s) && Leq(RankOf(s[0]), RankOf(m)) && multiset(t) == multiset(s[1..]) + multiset{m}
    ensures forall j | 0 <= j < |t| :: Leq(RankOf(s[0]), RankOf(t[j]))
  {
    hide RankOf, Leq;
    forall j | 0 <= j < |t| ensures Leq(RankOf(s[0]), RankOf(t[j])) {
      assert t[j] in multiset(t);
      if t[j] != m {
        assert t[j] in s[1..];
        var i :| 0 <= i < |s[1..]| && s[1..][i] == t[j];
        assert s[i + 1] == t[j];
      }
    }
  }

  lemma {:induction false} InsertOrdered(m: Dict, s: seq<Dict>)
    requires Ordered(s)
    ensures Ordered(Insert(m, s))
  {
    hide RankOf, Leq;
    if s != [] {
      if Leq(RankOf(s[0]), RankOf(m)) {
        InsertOrdered(m, s[1..]);
        InsertSame(m, s[1..]);
        FirstLeq(m, s, Insert(m, s[1..]));
      } else {
        Total(RankOf(s[0]), RankOf(m));
        forall j | 0 <= j < |s| ensures Leq(RankOf(m), RankOf(s[j])) {
          if j > 0 { Transitive(RankOf(m), RankOf(s[0]), RankOf(s[j])); }
        }
      }
    }
  }

  lemma Trivial(s: seq<Dict>)
    requires s == []
    ensures Ordered(s)
  {
  }

  /** `sorted` permutes its input into order. */
  lemma {:induction false} SortedOrdered(s: seq<Dict>)
    ensures Ordered(Sorted(s)) && multiset(Sorted(s)) == multiset(s)
  {
    hide RankOf, Leq, Insert, Ordered;
    if s == [] {
      Trivial(s);
    } else {
      SortedOrdered(s[..|s| - 1]);
      InsertOrdered(s[|s| - 1], Sorted(s[..|s| - 1]));
      InsertSame(s[|s| - 1], Sorted(s[..|s| - 1]));
      assert s == s[..|s| - 1] + [s[|s| - 1]];
    }
  }

  /** The records of one rank, in order. */
  function WithRank(s: seq<Dict>, r: Rank): seq<Dict> {
    if s == [] then [] else (if RankOf(s[0]) == r then [s[0]] else []) + WithRank(s[1..], r)
  }

  lemma {:induction false} WithRankConcat(a: seq<Dict>, b: seq<Dict>, r: Rank)
    ensures WithRank(a + b, r) == WithRank(a, r) + WithRank(b, r)
  {
    if a == [] {
      assert a + b == b;
    } else {
      assert (a + b)[1..] == a[1..] + b;
      WithRankConcat(a[1..], b, r);
    }
  }

  lemma {:induction false} WithRankNone(s: seq<Dict>, r: Rank)
    requires forall m <- s :: RankOf(m) != r
    ensures WithRank(s, r) == []
  {
    if s != [] { WithRankNone(s[1..], r); }
  }

  lemma {:induction false} InsertStable(m: Dict, s: seq<Dict>, r: Rank)
    requires Ordered(s)
    ensures WithRank(Insert(m, s), r) == WithRank(s, r) + (if RankOf(m) == r then [m] else [])
  {
    hide RankOf, Leq;
    if s == [] {
      assert WithRank([m][1..], r) == [];
    } else if Leq(RankOf(s[0]), RankOf(m)) {
      InsertStable(m, s[1..], r);
      TailOfCons(s[0], Insert(m, s[1..]));
    } else {
      TailOfCons(m, s);
      if RankOf(m) == r { NoneOfRank(m, s); }
    }
  }

  lemma NoneOfRank(m: Dict, s: seq<Dict>)
    requires s != [] && Ordered(s) && !Leq(RankOf(s[0]), RankOf(m))
    ensures WithRank(s, RankOf(m)) == []
  {
    hide RankOf, Leq;
    Total(RankOf(m), RankOf(m));
    forall x | x in s ensures RankOf(x) != RankOf(m) {
      var i :| 0 <= i < |s| && s[i] == x;
      assert i > 0 ==> Leq(RankOf(s[0]), RankOf(s[i]));
    }
    WithRankNone(s, RankOf(m));
  }

  lemma WithRankOne(m: Dict, r: Rank)
    ensures WithRank([m], r) == if RankOf(m) == r then [m] else []
  {
    hide RankOf;
    assert WithRank([m][1..], r) == [];
  }

  /** `sorted` is stable: records of equal rank keep the order in which their ids first came. */
  lemma {:induction false} SortedStable(s: seq<Dict>, r: Rank)
    ensures WithRank(Sorted(s), r) == WithRank(s, r)
  {
    hide RankOf, Leq, Insert, Ordered, WithRank;
    if s != [] {
      var a, m := s[..|s| - 1], s[|s| - 1];
      SortedStable(a, r);
      SortedOrdered(a);
      InsertStable(m, Sorted(a), r);
      WithRankConcat(a, [m], r);
      WithRankOne(m, r);
      assert s == a + [m];
    }
  }

  // ---- distinct ranks leave one order ----

  predicate DistinctRanks(s: seq<Dict>) { forall i, j | 0 <= i < j < |s| :: RankOf(s[i]) != RankOf(s[j]) }

  /** Two ordered lists of the same records, all of different rank, are equal. */
  lemma {:induction false} OneOrder(a: seq<Dict>, b: seq<Dict>)
    requires Ordered(a) && Ordered(b) && multiset(a) == multiset(b) && DistinctRanks(a)
    ensures a == b
  {
    hide RankOf, Leq;
    assert |a| == |multiset(a)| == |multiset(b)| == |b|;
    if a != [] {
      SameFirst(a, b);
      SameRest(a, b);
      assert Ordered(a[1..]) && Ordered(b[1..]) && DistinctRanks(a[1..]);
      OneOrder(a[1..], b[1..]);
      HeadTail(a);
      HeadTail(b);
    }
  }

  lemma SameRest<T>(a: seq<T>, b: seq<T>)
    requires a != [] && b != [] && a[0] == b[0] && multiset(a) == multiset(b)
    ensures multiset(a[1..]) == multiset(b[1..])
  {
    HeadTail(a);
    HeadTail(b);
    assert multiset(a[1..]) == multiset(a) - multiset{a[0]} && multiset(b[1..]) == multiset(b) - multiset{b[0]};
  }

  lemma SameFirst(a: seq<Dict>, b: seq<Dict>)
    requires Ordered(a) && Ordered(b) && multiset(a) == multiset(b) && DistinctRanks(a) && a != [] && b != []
    ensures a[0] == b[0]
  {
    hide RankOf, Leq;
    assert b[0] in multiset(a) && a[0] in multiset(b);
    var i :| 0 <= i < |a| && a[i] == b[0];
    var j :| 0 <= j < |b| && b[j] == a[0];
    Total(RankOf(a[0]), RankOf(b[0]));
  }
}
