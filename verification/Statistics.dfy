/** dump_statistics_result of scripts/latency_handle.py: sort, count, quantiles; and the whole report
    line of one message size.  Quantile positions are exact rationals; mean and deviation are
    functions of the sorted list that the line's builder is given. */
module Statistics {
  import opened BytesBuffers
  import opened Reports

  // ---------------------------------------------------------------- list.sort()

  ghost predicate IsSorted(s: seq<int>)
  {
    forall i, j | 0 <= i < j < |s| :: s[i] <= s[j]
  }

  function Insert(s: seq<int>, x: int): (t: seq<int>)
  {
    if s == [] || x <= s[0] then [x] + s else [s[0]] + Insert(s[1..], x)
  }

  function Sort(s: seq<int>): (t: seq<int>)
    ensures |t| == |s|
  {
    if s == [] then [] else var t := Sort(s[1..]); InsertLength(t, s[0]); Insert(t, s[0])
  }

  lemma {:induction false} InsertLength(s: seq<int>, x: int)
    ensures |Insert(s, x)| == |s| + 1
  {
    if s != [] && x > s[0] {
      InsertLength(s[1..], x);
    }
  }

  lemma {:induction false} InsertKeeps(s: seq<int>, x: int)
    ensures multiset(Insert(s, x)) == multiset(s) + multiset{x}
  {
    if s != [] && x > s[0] {
      InsertKeeps(s[1..], x);
      assert s == [s[0]] + s[1..];
    }
  }

  lemma {:induction false} InsertSorts(s: seq<int>, x: int)
    requires IsSorted(s)
    ensures IsSorted(Insert(s, x))
  {
    if s != [] && x > s[0] {
      InsertSorts(s[1..], x);
      InsertKeeps(s[1..], x);
      var t := Insert(s[1..], x);
      forall i | 0 <= i < |t| ensures s[0] <= t[i] {
        assert t[i] in multiset(t);
        assert t[i] in s[1..] || t[i] == x;
      }
    }
  }

  lemma {:induction false} SortSorts(s: seq<int>)
    ensures IsSorted(Sort(s)) && multiset(Sort(s)) == multiset(s)
  {
    if s != [] {
      SortSorts(s[1..]);
      InsertSorts(Sort(s[1..]), s[0]);
      InsertKeeps(Sort(s[1..]), s[0]);
      assert s == [s[0]] + s[1..];
    }
  }

  lemma HeadIsLeast(s: seq<int>, v: int)
    requires IsSorted(s) && v in multiset(s)
    ensures s != [] && s[0] <= v
  {
    assert v in s;
  }

  lemma TailBag(s: seq<int>)
    requires s != []
    ensures multiset(s[1..]) == multiset(s) - multiset{s[0]} && s[0] in multiset(s)
  {
    assert s == [s[0]] + s[1..];
  }

  lemma TailSorted(s: seq<int>)
    requires IsSorted(s) && s != []
    ensures IsSorted(s[1..])
  {
  }

  lemma SameLength(a: seq<int>, b: seq<int>)
    requires multiset(a) == multiset(b)
    ensures |a| == |b|
  {
    assert |a| == |multiset(a)| && |b| == |multiset(b)|;
  }

  lemma TailsAgree(a: seq<int>, b: seq<int>)
    requires a != [] && b != [] && a[0] == b[0] && multiset(a) == multiset(b)
    ensures multiset(a[1..]) == multiset(b[1..])
    ensures a[1..] == b[1..] ==> a == b
  {
    TailBag(a);
    TailBag(b);
    assert a == [a[0]] + a[1..] && b == [b[0]] + b[1..];
  }

  /** A sorted list is determined by its elements. */
  lemma {:induction false} SortedUnique(a: seq<int>, b: seq<int>)
    requires IsSorted(a) && IsSorted(b) && multiset(a) == multiset(b)
    ensures a == b
    decreases |a|
  {
    SameLength(a, b);
    if a != [] {
      TailBag(a);
      TailBag(b);
      HeadIsLeast(a, b[0]);
      HeadIsLeast(b, a[0]);
      TailsAgree(a, b);
      TailSorted(a);
      TailSorted(b);
      hide IsSorted;
      SortedUnique(a[1..], b[1..]);
    }
  }

  // ---------------------------------------------------------------- latencies up to order

  lemma NoKeys(a: seq<string>, b: seq<string>)
    requires forall k :: k in a <==> k in b
    ensures a == [] <==> b == []
  {
    if a != [] { assert a[0] in a; }
    if b != [] { assert b[0] in b; }
  }

  /** Two enumerations of the same keys give the same latencies up to order. */
  lemma {:induction false} LatenciesOfSameKeys(a: seq<string>, b: seq<string>, m: Cells, begin: string, end: string)
    requires Distinct(a) && Distinct(b) && forall k :: k in a <==> k in b
    ensures multiset(Latencies(a, m, begin, end)) == multiset(Latencies(b, m, begin, end))
    decreases |a|
  {
    hide Distinct, Latencies;
    if a == [] {
      NoKeys(a, b);
    } else {
      assert a[0] in b;
      var i :| 0 <= i < |b| && b[i] == a[0];
      var b' := b[..i] + b[i + 1..];
      RemoveKey(a, b, i);
      LatenciesOfSameKeys(a[1..], b', m, begin, end);
      TakeOut(a, 0, m, begin, end);
      TakeOut(b, i, m, begin, end);
      assert a[..0] + a[0 + 1..] == a[1..];
    }
  }

  lemma TakeOut(b: seq<string>, i: nat, m: Cells, begin: string, end: string)
    requires i < |b|
    ensures multiset(Latencies(b, m, begin, end))
         == multiset(Latencies([b[i]], m, begin, end)) + multiset(Latencies(b[..i] + b[i + 1..], m, begin, end))
  {
    hide Latencies;
    LatenciesAppend(b[..i], b[i + 1..], m, begin, end);
    LatenciesAppend(b[..i], [b[i]] + b[i + 1..], m, begin, end);
    LatenciesAppend([b[i]], b[i + 1..], m, begin, end);
    assert b == b[..i] + ([b[i]] + b[i + 1..]);
  }

  lemma RemoveKey(a: seq<string>, b: seq<string>, i: nat)
    requires Distinct(a) && Distinct(b) && i < |b| && a != [] && b[i] == a[0]
    requires forall k :: k in a <==> k in b
    ensures var b' := b[..i] + b[i + 1..];
            Distinct(a[1..]) && Distinct(b') && forall k :: k in a[1..] <==> k in b'
  {
    var b' := b[..i] + b[i + 1..];
    assert forall j | 0 <= j < |b'| :: b'[j] == if j < i then b[j] else b[j + 1];
    forall k ensures k in a[1..] <==> k in b' {
      if k in a[1..] {
        var j :| 0 <= j < |a[1..]| && a[1..][j] == k;
        assert a[j + 1] == k && k != a[0] && k in b;
        var l :| 0 <= l < |b| && b[l] == k;
        assert b'[if l < i then l else l - 1] == k;
      }
      if k in b' {
        var j :| 0 <= j < |b'| && b'[j] == k;
        assert k in b && k != b[i];
        assert k in a;
        var l :| 0 <= l < |a| && a[l] == k;
        assert a[1..][l - 1] == k;
      }
    }
  }

  // ---------------------------------------------------------------- quantiles

  /** `r` is the integer nearest to num / 100, of two such integers the even one. */
  predicate Nearest(r: nat, num: int)
  {
    -100 <= 200 * r - 2 * num <= 100 && (num % 100 == 50 ==> r % 2 == 0)
  }

  /** Python's round on the rational num / 100. */
  function RoundHalfEven(num: nat): (r: nat)
    ensures Nearest(r, num)
  {
    var q, rest := num / 100, num % 100;
    if rest < 50 then q else if rest > 50 then q + 1 else if q % 2 == 0 then q else q + 1
  }

  /** The index of quantile 10 * p in a list of n. */
  function QuantileIndex(p: nat, n: nat): (i: nat)
  {
    RoundHalfEven(10 * p * n)
  }

  datatype Line = Line(size: int, count: nat, mean: int, deviation: int, quantiles: seq<int>)

  function QuantilesFrom(s: seq<int>, p: nat): (q: Option<seq<int>>)
    requires p <= 10
    decreases 10 - p
  {
    if p == 10 then (if s == [] then None else Some([s[|s| - 1]]))
    else if QuantileIndex(p, |s|) >= |s| then None
    else
      Prepend([s[QuantileIndex(p, |s|)]], QuantilesFrom(s, p + 1))
  }

  function Prepend(q: seq<int>, rest: Option<seq<int>>): Option<seq<int>>
  {
    if rest.None? then None else Some(q + rest.value)
  }

  lemma PrependMore(q: seq<int>, v: int, rest: Option<seq<int>>)
    ensures Prepend(q, Prepend([v], rest)) == Prepend(q + [v], rest)
    ensures Prepend([], rest) == rest
  {
    if rest.Some? {
      assert q + ([v] + rest.value) == (q + [v]) + rest.value;
      assert [] + rest.value == rest.value;
    }
  }

  /** The line of one size, or None where the script raises IndexError. */
  function LineOf(size: int, latencies: seq<int>, mean: seq<int> -> int, deviation: seq<int> -> int): Option<Line>
  {
    var s := Sort(latencies);
    var q := QuantilesFrom(s, 0);
    if q.None? then None else Some(Line(size, |s|, mean(s), deviation(s), q.value))
  }

  lemma NextQuantile(s: seq<int>, p: nat, q: seq<int>)
    requires p < 10
    ensures var i := QuantileIndex(p, |s|);
            Prepend(q, QuantilesFrom(s, p)) == if i >= |s| then None else Prepend(q + [s[i]], QuantilesFrom(s, p + 1))
  {
    hide QuantileIndex;
    var i := QuantileIndex(p, |s|);
    if i < |s| {
      PrependMore(q, s[i], QuantilesFrom(s, p + 1));
    }
  }

  lemma LastQuantile(s: seq<int>, q: seq<int>)
    ensures Prepend(q, QuantilesFrom(s, 10)) == if s == [] then None else Some(q + [s[|s| - 1]])
  {
  }

  /** The last position decides: it is inside the list exactly from five elements on. */
  lemma LastIndexIff(n: nat)
    ensures QuantileIndex(9, n) < n <==> n >= 5
  {
    if n == 5 {
      assert RoundHalfEven(450) == 4;
    }
  }

  lemma IndexMonotone(p: nat, q: nat, n: nat)
    requires p <= q
    ensures QuantileIndex(p, n) <= QuantileIndex(q, n)
  {
    assert 10 * p * n + 10 * (q - p) * n == 10 * q * n;
    RoundMonotone(10 * p * n, 10 * q * n);
  }

  lemma RoundMonotone(a: nat, b: nat)
    requires a <= b
    ensures RoundHalfEven(a) <= RoundHalfEven(b)
  {
  }

  /** What a successful lookup returns from position p on. */
  ghost predicate Picked(s: seq<int>, p: nat, q: seq<int>)
    requires p <= 10
  {
    && |q| == 11 - p && s != [] && q[10 - p] == s[|s| - 1]
    && forall i: nat | p <= i < 10 :: QuantileIndex(i, |s|) < |s| && q[i - p] == s[QuantileIndex(i, |s|)]
  }

  lemma {:induction false} LookupPicks(s: seq<int>, p: nat)
    requires p <= 10
    ensures QuantilesFrom(s, p).Some? ==> Picked(s, p, QuantilesFrom(s, p).value)
    ensures s != [] && QuantileIndex(9, |s|) < |s| ==> QuantilesFrom(s, p).Some?
    decreases 10 - p
  {
    hide QuantileIndex;
    if p < 10 {
      LookupPicks(s, p + 1);
      IndexMonotone(p, 9, |s|);
    }
  }

  lemma PickedAt(s: seq<int>, q: seq<int>, i: nat)
    requires Picked(s, 0, q) && i < 11
    ensures i < 10 ==> QuantileIndex(i, |s|) < |s| && q[i] == s[QuantileIndex(i, |s|)]
    ensures i == 10 ==> q[i] == s[|s| - 1]
  {
    assert q[i - 0] == q[i];
  }

  lemma PickedAreOrdered(s: seq<int>, q: seq<int>)
    requires IsSorted(s) && Picked(s, 0, q)
    ensures IsSorted(q) && (forall v <- q :: v in s) && (forall v <- s :: q[0] <= v <= q[10])
  {
    assert QuantileIndex(0, |s|) == 0;
    hide QuantileIndex;
    forall i, j | 0 <= i < j < |q| ensures q[i] <= q[j] {
      PickedAt(s, q, i);
      PickedAt(s, q, j);
      if j < 10 {
        IndexMonotone(i, j, |s|);
      }
    }
    forall v <- q ensures v in s {
      var i: nat :| i < 11 && q[i] == v;
      PickedAt(s, q, i);
    }
  }

  /** The line of a size exists exactly if it has at least five latencies; then the eleven values
      are non-decreasing elements of the list, from the minimum to the maximum, and the position of
      each of the first ten is the integer nearest to its exact rank, on a tie the even one. */
  lemma QuantilesAreRanks(size: int, latencies: seq<int>, mean: seq<int> -> int, deviation: seq<int> -> int)
    ensures LineOf(size, latencies, mean, deviation).Some? <==> |latencies| >= 5
    ensures |latencies| >= 5 ==>
              var q, s, n := LineOf(size, latencies, mean, deviation).value.quantiles, Sort(latencies), |latencies|;
              && |q| == 11 && IsSorted(q) && IsSorted(s)
              && (forall v <- q :: v in multiset(latencies))
              && (forall v <- latencies :: q[0] <= v <= q[10])
              && (forall p: nat | p < 10 ::
                    && QuantileIndex(p, n) < n && q[p] == s[QuantileIndex(p, n)]
                    && Nearest(QuantileIndex(p, n), 10 * p * n))
  {
    var s := Sort(latencies);
    SortSorts(latencies);
    LastIndexIff(|s|);
    LookupPicks(s, 0);
    if QuantilesFrom(s, 0).Some? {
      var q := QuantilesFrom(s, 0).value;
      PickedAreOrdered(s, q);
      SameElements(latencies, s);
      assert QuantileIndex(9, |s|) < |s|;
    }
  }

  /** The value at the position nearest to num / 100. */
  ghost predicate AtRank(v: int, s: seq<int>, num: int)
  {
    exists i: nat :: i < |s| && Nearest(i, num) && v == s[i]
  }

  /** Everything that a report line says, field by field: the size, how many latencies there are, their
      mean and deviation, and the quantiles 0, 10, .., 90 and the maximum. */
  ghost predicate LineSays(line: Line, size: int, latencies: seq<int>, mean: seq<int> -> int,
      deviation: seq<int> -> int)
  {
    && line.size == size && line.count == |latencies| && |line.quantiles| == 11
    && exists s: seq<int> ::
         && IsSorted(s) && multiset(s) == multiset(latencies)
         && line.mean == mean(s) && line.deviation == deviation(s)
         && s != [] && line.quantiles[10] == s[|s| - 1]
         && forall p: nat | p < 10 :: AtRank(line.quantiles[p], s, 10 * p * |s|)
  }

  lemma PickedAtRanks(s: seq<int>, q: seq<int>)
    requires Picked(s, 0, q)
    ensures forall p: nat | p < 10 :: AtRank(q[p], s, 10 * p * |s|)
  {
    forall p: nat | p < 10 ensures AtRank(q[p], s, 10 * p * |s|) {
      PickedAt(s, q, p);
      NearestIndex(p, |s|);
      hide QuantileIndex, Nearest, Picked;
      assert Nearest(QuantileIndex(p, |s|), 10 * p * |s|);
    }
  }

  lemma NearestIndex(p: nat, n: nat)
    ensures Nearest(QuantileIndex(p, n), 10 * p * n)
  {
  }

  lemma LineOfSays(size: int, latencies: seq<int>, mean: seq<int> -> int, deviation: seq<int> -> int)
    ensures var line := LineOf(size, latencies, mean, deviation);
            && (line.Some? <==> |latencies| >= 5)
            && (line.Some? ==> LineSays(line.value, size, latencies, mean, deviation))
  {
    hide Sort, QuantileIndex, Nearest, QuantilesFrom, IsSorted, AtRank, Picked;
    QuantilesAreRanks(size, latencies, mean, deviation);
    SortSorts(latencies);
    LookupPicks(Sort(latencies), 0);
    if QuantilesFrom(Sort(latencies), 0).Some? {
      LineFromSorted(size, latencies, Sort(latencies), QuantilesFrom(Sort(latencies), 0).value, mean, deviation);
    }
  }

  lemma LineFromSorted(size: int, latencies: seq<int>, s: seq<int>, q: seq<int>, mean: seq<int> -> int,
      deviation: seq<int> -> int)
    requires IsSorted(s) && multiset(s) == multiset(latencies) && Picked(s, 0, q)
    ensures LineSays(Line(size, |s|, mean(s), deviation(s), q), size, latencies, mean, deviation)
  {
    PickedAtRanks(s, q);
    PickedAt(s, q, 10);
    SameLength(s, latencies);
  }

  /** dump_statistics_result: sorts, then looks up the quantiles one after the other. */
  method DumpStatisticsResult(size: int, latencies: seq<int>, mean: seq<int> -> int, deviation: seq<int> -> int)
    returns (line: Option<Line>)
    ensures line == LineOf(size, latencies, mean, deviation)
    ensures line.Some? <==> |latencies| >= 5
    ensures line.Some? ==> LineSays(line.value, size, latencies, mean, deviation)
  {
    LineOfSays(size, latencies, mean, deviation);
    hide Sort, QuantilesFrom, Prepend, QuantileIndex, LineSays;
    var s := Sort(latencies);
    var n := |s|;
    var quantiles := [];
    PrependMore([], 0, QuantilesFrom(s, 0));
    for p := 0 to 10
      invariant QuantilesFrom(s, 0) == Prepend(quantiles, QuantilesFrom(s, p))
    {
      var i := QuantileIndex(p, n);
      NextQuantile(s, p, quantiles);
      if i >= n {
        return None;  // IndexError
      }
      quantiles := quantiles + [s[i]];
    }
    LastQuantile(s, quantiles);
    if n == 0 {
      return None;  // IndexError
    }
    line := Some(Line(size, n, mean(s), deviation(s), quantiles + [s[n - 1]]));
  }

  lemma SameElements(a: seq<int>, b: seq<int>)
    requires multiset(a) == multiset(b)
    ensures forall v :: v in a <==> v in b
  {
    forall v ensures v in a <==> v in b {
      assert v in a <==> v in multiset(a);
      assert v in b <==> v in multiset(b);
    }
  }

  // ---------------------------------------------------------------- the report

  /** Join, subtract. */
  function JoinedLatencies(rows: seq<Row>, begin: string, end: string): (ls: seq<int>)
  {
    Latencies(KeyOrder(rows), JoinMap(rows), begin, end)
  }

  /** Group, join, subtract. */
  function LatenciesOf(rows: seq<Row>, size: int, begin: string, end: string): (ls: seq<int>)
  {
    JoinedLatencies(OfSize(rows, size), begin, end)
  }

  /** The whole pipeline for one size: group, join, subtract, sort, pick. */
  function Report(rows: seq<Row>, size: int, begin: string, end: string,
                  mean: seq<int> -> int, deviation: seq<int> -> int): Option<Line>
  {
    LineOf(size, LatenciesOf(rows, size, begin, end), mean, deviation)
  }

  lemma {:induction false} OfSizeAppend(a: seq<Row>, b: seq<Row>, size: int)
    ensures OfSize(a + b, size) == OfSize(a, size) + OfSize(b, size)
    decreases |b|
  {
    if b == [] {
      assert a + b == a;
    } else {
      var init, r := b[..|b| - 1], b[|b| - 1];
      OfSizeAppend(a, init, size);
      assert (a + b)[..|a + b| - 1] == a + init;
      var more := if r.size == size then [r] else [];
      assert (OfSize(a, size) + OfSize(init, size)) + more == OfSize(a, size) + (OfSize(init, size) + more);
    }
  }

  lemma {:induction false} OfSizeHas(rows: seq<Row>, size: int)
    ensures forall r :: r in OfSize(rows, size) <==> r in rows && r.size == size
  {
    if rows != [] {
      OfSizeHas(rows[..|rows| - 1], size);
      assert rows == rows[..|rows| - 1] + [rows[|rows| - 1]];
    }
  }

  // ---------------------------------------------------------------- what a report depends on

  /** No two rows name different instants for the begin or the end of a key that has both. */
  ghost predicate Settled(rows: seq<Row>, begin: string, end: string)
  {
    forall r, s | r in rows && s in rows && SameCell(r, s) && Decides(rows, r, begin, end) ::
      Instant(StampOf(r)) == Instant(StampOf(s))
  }

  /** The row's cell is part of a latency. */
  predicate Decides(rows: seq<Row>, r: Row, begin: string, end: string)
  {
    (r.action == begin || r.action == end) && Joined(JoinMap(rows), Key(r), begin, end)
  }

  lemma ConsistentIsSettled(rows: seq<Row>, begin: string, end: string)
    requires Consistent(rows)
    ensures Settled(rows, begin, end)
  {
  }

  lemma SameFilled(a: seq<Row>, b: seq<Row>, k: string, act: string)
    requires SameRows(a, b)
    ensures Filled(JoinMap(a), k, act) <==> Filled(JoinMap(b), k, act)
  {
    if Filled(JoinMap(a), k, act) {
      var r := CellHasRow(a, k, act);
      assert r in b;
      JoinLookup(b);
    }
    if Filled(JoinMap(b), k, act) {
      var r := CellHasRow(b, k, act);
      assert r in a;
      JoinLookup(a);
    }
  }

  lemma SameJoined(a: seq<Row>, b: seq<Row>, begin: string, end: string)
    requires SameRows(a, b)
    ensures forall k :: Joined(JoinMap(a), k, begin, end) <==> Joined(JoinMap(b), k, begin, end)
  {
    hide JoinMap, SameRows;
    forall k ensures Joined(JoinMap(a), k, begin, end) <==> Joined(JoinMap(b), k, begin, end) {
      SameFilled(a, b, k, begin);
      SameFilled(a, b, k, end);
    }
  }

  lemma SameKeys(a: seq<Row>, b: seq<Row>)
    requires SameRows(a, b)
    ensures forall k :: k in KeyOrder(a) <==> k in KeyOrder(b)
    ensures Distinct(KeyOrder(a)) && Distinct(KeyOrder(b))
  {
    KeysAreOrdered(a);
    KeysAreOrdered(b);
    forall k ensures k in JoinMap(a) <==> k in JoinMap(b) {
      if k in JoinMap(a) { KeyAgrees(a, b, k); }
      if k in JoinMap(b) { KeyAgrees(b, a, k); }
    }
  }

  /** How many latencies there are does not depend on the stamps. */
  lemma {:induction false} AsManyLatencies(ks: seq<string>, m: Cells, n: Cells, begin: string, end: string)
    requires forall k :: Joined(m, k, begin, end) <==> Joined(n, k, begin, end)
    ensures |Latencies(ks, m, begin, end)| == |Latencies(ks, n, begin, end)|
  {
    if ks != [] {
      AsManyLatencies(ks[1..], m, n, begin, end);
    }
  }

  predicate SameLatency(m: Cells, n: Cells, k: string, begin: string, end: string)
  {
    && (Joined(m, k, begin, end) <==> Joined(n, k, begin, end))
    && (Joined(m, k, begin, end) ==> Elapsed(m, k, begin, end) == Elapsed(n, k, begin, end))
  }

  lemma {:induction false} EqualLatencies(ks: seq<string>, m: Cells, n: Cells, begin: string, end: string)
    requires forall k <- ks :: SameLatency(m, n, k, begin, end)
    ensures Latencies(ks, m, begin, end) == Latencies(ks, n, begin, end)
  {
    if ks != [] {
      assert ks[0] in ks;
      assert SameLatency(m, n, ks[0], begin, end);
      EqualLatencies(ks[1..], m, n, begin, end);
    }
  }

  lemma SameOfSize(a: seq<Row>, b: seq<Row>, size: int)
    requires SameRows(a, b)
    ensures SameRows(OfSize(a, size), OfSize(b, size))
  {
    OfSizeHas(a, size);
    OfSizeHas(b, size);
  }

  /** Any order of the rows gives as many latencies. */
  lemma LatencyCount(a: seq<Row>, b: seq<Row>, size: int, begin: string, end: string)
    requires SameRows(a, b)
    ensures |LatenciesOf(a, size, begin, end)| == |LatenciesOf(b, size, begin, end)|
  {
    var x, y := OfSize(a, size), OfSize(b, size);
    SameOfSize(a, b, size);
    SameJoined(x, y, begin, end);
    SameKeys(x, y);
    hide OfSize, KeyOrder, JoinMap, SameRows, Joined, Distinct, Latencies;
    LatenciesOfSameKeys(KeyOrder(x), KeyOrder(y), JoinMap(x), begin, end);
    AsManyLatencies(KeyOrder(y), JoinMap(x), JoinMap(y), begin, end);
    SameLength(Latencies(KeyOrder(x), JoinMap(x), begin, end), Latencies(KeyOrder(y), JoinMap(x), begin, end));
  }

  lemma SameInstant(a: seq<Row>, b: seq<Row>, k: string, act: string, begin: string, end: string)
    requires SameRows(a, b) && Settled(a, begin, end) && (act == begin || act == end)
    requires Joined(JoinMap(a), k, begin, end) && Filled(JoinMap(a), k, act) && Filled(JoinMap(b), k, act)
    ensures Instant(JoinMap(a)[k][act]) == Instant(JoinMap(b)[k][act])
  {
    var r := CellHasRow(a, k, act);
    var s := CellHasRow(b, k, act);
    hide JoinMap;
    assert s in a && SameCell(r, s) && Decides(a, r, begin, end);
  }

  lemma SameElapsed(a: seq<Row>, b: seq<Row>, k: string, begin: string, end: string)
    requires SameRows(a, b) && Settled(a, begin, end)
    ensures SameLatency(JoinMap(a), JoinMap(b), k, begin, end)
  {
    hide JoinMap, SameRows, Settled;
    SameJoined(a, b, begin, end);
    if Joined(JoinMap(a), k, begin, end) {
      SameInstant(a, b, k, begin, begin, end);
      SameInstant(a, b, k, end, begin, end);
    }
  }

  /** Two lists with the same rows give the same latencies up to order, if the rows are settled. */
  lemma LatenciesUpToOrder(a: seq<Row>, b: seq<Row>, size: int, begin: string, end: string)
    requires SameRows(a, b) && Settled(OfSize(a, size), begin, end)
    ensures multiset(LatenciesOf(a, size, begin, end)) == multiset(LatenciesOf(b, size, begin, end))
  {
    var x, y := OfSize(a, size), OfSize(b, size);
    SameOfSize(a, b, size);
    SameKeys(x, y);
    hide OfSize, KeyOrder, JoinMap, SameRows, Distinct, Latencies, Settled, SameLatency;
    LatenciesOfSameKeys(KeyOrder(x), KeyOrder(y), JoinMap(x), begin, end);
    forall k <- KeyOrder(y) ensures SameLatency(JoinMap(x), JoinMap(y), k, begin, end) {
      SameElapsed(x, y, k, begin, end);
    }
    EqualLatencies(KeyOrder(y), JoinMap(x), JoinMap(y), begin, end);
  }

  /** The report of a size does not depend on the order of files and rows, if the rows of the size are
      settled: any list with the same rows gives the same line. */
  lemma ReportIsOrderIndependent(a: seq<Row>, b: seq<Row>, size: int, begin: string, end: string,
                                 mean: seq<int> -> int, deviation: seq<int> -> int)
    requires SameRows(a, b) && Settled(OfSize(a, size), begin, end)
    ensures Report(a, size, begin, end, mean, deviation) == Report(b, size, begin, end, mean, deviation)
  {
    LatenciesUpToOrder(a, b, size, begin, end);
    var k, l := LatenciesOf(a, size, begin, end), LatenciesOf(b, size, begin, end);
    SortSorts(k);
    SortSorts(l);
    SortedUnique(Sort(k), Sort(l));
    hide LineOf, Sort, LatenciesOf;
    SameSortSameLine(size, k, l, mean, deviation);
  }

  lemma SameSortSameLine(size: int, k: seq<int>, l: seq<int>, mean: seq<int> -> int, deviation: seq<int> -> int)
    requires Sort(k) == Sort(l)
    ensures LineOf(size, k, mean, deviation) == LineOf(size, l, mean, deviation)
  {
  }

  // ---------------------------------------------------------------- the exact condition

  lemma StoreTwice(m: Cells, r: Row, s: Row)
    requires SameCell(r, s)
    ensures Store(Store(m, r), s) == Store(m, s)
  {
    var k := Key(r);
    assert Store(Store(m, r), s)[k] == Store(m, s)[k];
  }

  lemma StoresCommute(m: Cells, r: Row, s: Row)
    requires !SameCell(r, s)
    ensures Store(Store(m, r), s) == Store(Store(m, s), r)
  {
    StoresCommuteAt(m, Key(r), Key(s), r.action, s.action, StampOf(r), StampOf(s));
  }

  lemma StoresCommuteAt(m: Cells, k: string, l: string, a: string, b: string, t: Stamp, u: Stamp)
    requires !(k == l && a == b)
    ensures StoreAt(StoreAt(m, k, a, t), l, b, u) == StoreAt(StoreAt(m, l, b, u), k, a, t)
  {
    if k == l {
      var c: map<string, Stamp> := if k in m then m[k] else map[];
      CellsCommute(c, a, b, t, u);
      assert StoreAt(StoreAt(m, k, a, t), l, b, u) == m[k := c[a := t][b := u]];
      assert StoreAt(StoreAt(m, l, b, u), k, a, t) == m[k := c[b := u][a := t]];
    } else {
      var x := (if k in m then m[k] else map[])[a := t];
      var y := (if l in m then m[l] else map[])[b := u];
      assert m[k := x][l := y] == m[l := y][k := x];
    }
  }

  lemma CellsCommute(c: map<string, Stamp>, a: string, b: string, t: Stamp, u: Stamp)
    requires a != b
    ensures c[a := t][b := u] == c[b := u][a := t]
  {
  }

  lemma JoinSnoc(rows: seq<Row>, r: Row)
    ensures JoinMap(rows + [r]) == Store(JoinMap(rows), r)
  {
    assert (rows + [r])[..|rows|] == rows;
  }

  /** Moving a row to the end decides its own cell and nothing else. */
  lemma {:induction false} MovedLast(rows: seq<Row>, i: nat)
    requires i < |rows|
    ensures JoinMap(Last(rows, i)) == Store(JoinMap(rows), rows[i])
    decreases |rows|
  {
    hide Store, SameCell, JoinMap;
    var init, x, r := rows[..|rows| - 1], rows[|rows| - 1], rows[i];
    assert rows == init + [x];
    JoinSnoc(init, x);
    if i == |rows| - 1 {
      assert Last(rows, i) == rows;
      assert SameCell(r, r) by { SameAsItself(r); }
      StoreTwice(JoinMap(init), r, r);
    } else {
      var rest := init[..i] + init[i + 1..];
      MovedLast(init, i);
      assert Last(init, i) == rest + [r] && Last(rows, i) == (rest + [x]) + [r];
      JoinSnoc(rest, r);
      JoinSnoc(rest, x);
      JoinSnoc(rest + [x], r);
      if SameCell(x, r) {
        StoreTwice(JoinMap(rest), x, r);
        StoreTwice(JoinMap(init), x, r);
      } else {
        StoresCommute(JoinMap(rest), x, r);
        StoresCommute(JoinMap(init), x, r);
      }
    }
  }

  lemma SameAsItself(r: Row)
    ensures SameCell(r, r)
  {
  }

  /** The rows of all other sizes. */
  function Others(rows: seq<Row>, size: int): (rs: seq<Row>)
  {
    if rows == [] then []
    else
      var r := rows[|rows| - 1];
      Others(rows[..|rows| - 1], size) + if r.size == size then [] else [r]
  }

  lemma {:induction false} SplitBySize(rows: seq<Row>, size: int)
    ensures multiset(rows) == multiset(OfSize(rows, size)) + multiset(Others(rows, size))
  {
    if rows != [] {
      var init, r := rows[..|rows| - 1], rows[|rows| - 1];
      SplitBySize(init, size);
      assert rows == init + [r];
      SplitSnoc(init, r, size);
      hide OfSize, Others;
    }
  }

  lemma SplitSnoc(init: seq<Row>, r: Row, size: int)
    requires multiset(init) == multiset(OfSize(init, size)) + multiset(Others(init, size))
    ensures multiset(init + [r]) == multiset(OfSize(init + [r], size)) + multiset(Others(init + [r], size))
  {
    hide OfSize, Others;
    SizeSnoc(init, r, size);
    var x, y := OfSize(init, size), Others(init, size);
    BagSnoc(init, r);
    BagSnoc(x, r);
    BagSnoc(y, r);
    BagsAdd(multiset(x), multiset(y), multiset{r});
  }

  lemma BagsAdd(a: multiset<Row>, b: multiset<Row>, c: multiset<Row>)
    ensures (a + b) + c == (a + c) + b == a + (b + c)
  {
  }

  lemma BagSnoc(rows: seq<Row>, r: Row)
    ensures multiset(rows + [r]) == multiset(rows) + multiset{r}
  {
  }

  lemma SizeSnoc(rows: seq<Row>, r: Row, size: int)
    ensures OfSize(rows + [r], size) == if r.size == size then OfSize(rows, size) + [r] else OfSize(rows, size)
    ensures Others(rows + [r], size) == if r.size == size then Others(rows, size) else Others(rows, size) + [r]
  {
    assert (rows + [r])[..|rows|] == rows;
    assert OfSize(rows, size) + [] == OfSize(rows, size) && Others(rows, size) + [] == Others(rows, size);
  }

  lemma {:induction false} OthersAreOthers(rows: seq<Row>, size: int)
    ensures OfSize(Others(rows, size), size) == []
  {
    if rows != [] {
      var init, r := rows[..|rows| - 1], rows[|rows| - 1];
      OthersAreOthers(init, size);
      var y := Others(init, size);
      assert y + [] == y && (y + [r])[..|y|] == y;
    }
  }

  lemma {:induction false} AllOfSize(rows: seq<Row>, size: int)
    requires forall r <- rows :: r.size == size
    ensures OfSize(rows, size) == rows
  {
    if rows != [] {
      AllOfSize(rows[..|rows| - 1], size);
      assert rows == rows[..|rows| - 1] + [rows[|rows| - 1]];
    }
  }

  /** A permutation that puts row i of a size last. */
  lemma LastOfSize(rows: seq<Row>, size: int, i: nat) returns (p: seq<Row>)
    requires i < |OfSize(rows, size)|
    ensures multiset(p) == multiset(rows) && OfSize(p, size) == Last(OfSize(rows, size), i)
  {
    var mine, others := OfSize(rows, size), Others(rows, size);
    var moved := Last(mine, i);
    p := others + moved;
    SplitBySize(rows, size);
    OthersAreOthers(rows, size);
    LastIsPermutation(mine, i);
    OfSizeHas(rows, size);
    PermutedSame(moved, mine);
    hide OfSize, Others, Last;
    AllOfSize(moved, size);
    OfSizeAppend(others, moved, size);
    assert [] + moved == moved;
    assert multiset(p) == multiset(others) + multiset(moved);
  }

  lemma PermutedSame(a: seq<Row>, b: seq<Row>)
    requires multiset(a) == multiset(b)
    ensures SameRows(a, b)
  {
    forall r ensures r in a <==> r in b {
      assert r in a <==> r in multiset(a);
      assert r in b <==> r in multiset(b);
    }
  }

  /** The latencies after row `r` of a joined key has been read last: its own latency, and those of the
      other keys as they were. */
  lemma LatenciesAfter(mine: seq<Row>, i: nat, begin: string, end: string, at: nat)
    requires i < |mine| && begin != end && Decides(mine, mine[i], begin, end)
    requires at < |KeyOrder(mine)| && KeyOrder(mine)[at] == Key(mine[i])
    ensures var r, ks, m := mine[i], KeyOrder(mine), JoinMap(mine);
            var q := Last(mine, i);
            && Joined(Store(m, r), Key(r), begin, end)
            && multiset(Latencies(KeyOrder(q), JoinMap(q), begin, end)) ==
                 multiset{Elapsed(Store(m, r), Key(r), begin, end)} +
                 multiset(Latencies(ks[..at] + ks[at + 1..], m, begin, end))
  {
    var r, ks, m, q := mine[i], KeyOrder(mine), JoinMap(mine), Last(mine, i);
    MovedLast(mine, i);
    LastIsPermutation(mine, i);
    PermutedSame(q, mine);
    SameKeys(q, mine);
    var n, rest := Store(m, r), ks[..at] + ks[at + 1..];
    OtherKeys(ks, at);
    forall k <- rest ensures SameLatency(n, m, k, begin, end) {
    }
    hide JoinMap, Latencies, KeyOrder, Last, Distinct, SameLatency;
    LatenciesOfSameKeys(KeyOrder(q), ks, n, begin, end);
    TakeOut(ks, at, n, begin, end);
    EqualLatencies(rest, n, m, begin, end);
    OneLatency(Key(r), n, begin, end);
  }

  lemma OtherKeys(ks: seq<string>, at: nat)
    requires Distinct(ks) && at < |ks|
    ensures ks[at] !in ks[..at] + ks[at + 1..]
  {
  }

  lemma OneLatency(k: string, m: Cells, begin: string, end: string)
    requires Joined(m, k, begin, end)
    ensures Latencies([k], m, begin, end) == [Elapsed(m, k, begin, end)]
  {
    assert [k][1..] == [];
  }

  /** Which of two disagreeing rows is read last shows in the latencies. */
  lemma OrdersDiffer(mine: seq<Row>, i: nat, j: nat, begin: string, end: string)
    requires i < |mine| && j < |mine| && begin != end
    requires SameCell(mine[i], mine[j]) && Decides(mine, mine[i], begin, end)
    requires Instant(StampOf(mine[i])) != Instant(StampOf(mine[j]))
    ensures multiset(JoinedLatencies(Last(mine, i), begin, end)) != multiset(JoinedLatencies(Last(mine, j), begin, end))
  {
    var r, s, m := mine[i], mine[j], JoinMap(mine);
    KeysAreOrdered(mine);
    var at :| 0 <= at < |KeyOrder(mine)| && KeyOrder(mine)[at] == Key(r);
    LatenciesAfter(mine, i, begin, end, at);
    LatenciesAfter(mine, j, begin, end, at);
    StoredElapsed(m, r, s, begin, end);
    hide JoinMap, Latencies, KeyOrder, Last, Store, Joined, Elapsed, Instant;
    var rest := multiset(Latencies(KeyOrder(mine)[..at] + KeyOrder(mine)[at + 1..], m, begin, end));
    DifferentBags(Elapsed(Store(m, r), Key(r), begin, end), Elapsed(Store(m, s), Key(s), begin, end), rest);
  }

  lemma TwoRows(mine: seq<Row>, begin: string, end: string) returns (i: nat, j: nat)
    requires !Settled(mine, begin, end)
    ensures i < |mine| && j < |mine| && SameCell(mine[i], mine[j]) && Decides(mine, mine[i], begin, end)
    ensures Instant(StampOf(mine[i])) != Instant(StampOf(mine[j]))
  {
    var r, s :| r in mine && s in mine && SameCell(r, s) && Decides(mine, r, begin, end)
                && Instant(StampOf(r)) != Instant(StampOf(s));
    i :| 0 <= i < |mine| && mine[i] == r;
    j :| 0 <= j < |mine| && mine[j] == s;
  }

  lemma DisagreementShows(rows: seq<Row>, size: int, begin: string, end: string) returns (p: seq<Row>)
    requires begin != end && !Settled(OfSize(rows, size), begin, end)
    ensures multiset(p) == multiset(rows)
    ensures multiset(LatenciesOf(p, size, begin, end)) != multiset(LatenciesOf(rows, size, begin, end))
  {
    hide OfSize, JoinedLatencies, Last, Settled, Decides, Instant, SameCell;
    var i, j := TwoRows(OfSize(rows, size), begin, end);
    OrdersDiffer(OfSize(rows, size), i, j, begin, end);
    p := LastOfSize(rows, size, i);
    if multiset(LatenciesOf(p, size, begin, end)) == multiset(LatenciesOf(rows, size, begin, end)) {
      p := LastOfSize(rows, size, j);
    }
  }

  lemma DifferentBags(a: int, b: int, rest: multiset<int>)
    requires a != b
    ensures multiset{a} + rest != multiset{b} + rest
  {
    assert (multiset{a} + rest)[a] == 1 + rest[a];
    assert (multiset{b} + rest)[a] == rest[a];
  }

  lemma StoredElapsed(m: Cells, r: Row, s: Row, begin: string, end: string)
    requires begin != end && SameCell(r, s) && Joined(m, Key(r), begin, end) && (r.action == begin || r.action == end)
    requires Instant(StampOf(r)) != Instant(StampOf(s))
    ensures Elapsed(Store(m, r), Key(r), begin, end) != Elapsed(Store(m, s), Key(s), begin, end)
  {
  }

  /** The exact condition, for all rows: every order of the rows gives the same latencies of a size (up to
      their order, which sorting removes) exactly if the rows of the size are settled. */
  lemma LatenciesOrderIndependentIff(rows: seq<Row>, size: int, begin: string, end: string)
    requires begin != end
    ensures (forall p: seq<Row> | multiset(p) == multiset(rows) ::
               multiset(LatenciesOf(p, size, begin, end)) == multiset(LatenciesOf(rows, size, begin, end)))
            <==> Settled(OfSize(rows, size), begin, end)
  {
    hide OfSize, LatenciesOf, Settled;
    if Settled(OfSize(rows, size), begin, end) {
      forall p: seq<Row> | multiset(p) == multiset(rows)
        ensures multiset(LatenciesOf(p, size, begin, end)) == multiset(LatenciesOf(rows, size, begin, end))
      {
        PermutedSame(rows, p);
        LatenciesUpToOrder(rows, p, size, begin, end);
      }
    } else {
      var p := DisagreementShows(rows, size, begin, end);
    }
  }
}
