/** scripts/network_latency_analysis.py and scripts/latency_handle.py, from rows to report lines. */
module Reports {
  import opened BytesBuffers

  /** A parsed row of a record file. */
  datatype Row = Row(sec: int, nsec: int, uid: string, id: string, size: int, action: string)

  type Stamp = (int, int)
  type Cells = map<string, map<string, Stamp>>

  function Key(r: Row): string
  {
    r.uid + "_" + r.id
  }

  function StampOf(r: Row): Stamp
  {
    (r.sec, r.nsec)
  }

  // ---------------------------------------------------------------- grouping by size

  function OfSize(rows: seq<Row>, size: int): (rs: seq<Row>)
  {
    if rows == [] then []
    else
      var r := rows[|rows| - 1];
      OfSize(rows[..|rows| - 1], size) + if r.size == size then [r] else []
  }

  /** `out` is `dict` with the rows appended to the lists of their sizes. */
  ghost predicate Loaded(dict: map<int, seq<Row>>, rows: seq<Row>, out: map<int, seq<Row>>)
  {
    forall k ::
      && (k in out <==> k in dict || OfSize(rows, k) != [])
      && (k in out ==> out[k] == (if k in dict then dict[k] else []) + OfSize(rows, k))
  }

  /** The dictionary's iteration order: a size is added when its first row is. */
  function SizesAfter(sizes: seq<int>, rows: seq<Row>): (order: seq<int>)
  {
    if rows == [] then sizes
    else
      var order, size := SizesAfter(sizes, rows[..|rows| - 1]), rows[|rows| - 1].size;
      if size in order then order else order + [size]
  }

  lemma {:induction false} SizesAreKeys(sizes: seq<int>, rows: seq<Row>)
    ensures forall k :: k in SizesAfter(sizes, rows) <==> k in sizes || OfSize(rows, k) != []
  {
    if rows != [] {
      SizesAreKeys(sizes, rows[..|rows| - 1]);
    }
  }

  lemma {:induction false} SizesAppend(sizes: seq<int>, a: seq<Row>, b: seq<Row>)
    ensures SizesAfter(sizes, a + b) == SizesAfter(SizesAfter(sizes, a), b)
    decreases |b|
  {
    if b == [] {
      assert a + b == a;
    } else {
      SizesAppend(sizes, a, b[..|b| - 1]);
      assert (a + b)[..|a + b| - 1] == a + b[..|b| - 1];
    }
  }

  /** load_record_list_dict; `sizes` holds the keys of the dictionary in the order of insertion. */
  method LoadRecordListDict(sizes: seq<int>, dict: map<int, seq<Row>>, rows: seq<Row>)
    returns (order: seq<int>, out: map<int, seq<Row>>)
    requires forall k :: k in sizes <==> k in dict
    ensures Loaded(dict, rows, out)
    ensures order == SizesAfter(sizes, rows)
  {
    hide Loaded, SizesAfter;
    order, out := sizes, dict;
    NothingLoaded(sizes, dict);
    for i := 0 to |rows|
      invariant Loaded(dict, rows[..i], out)
      invariant order == SizesAfter(sizes, rows[..i])
    {
      ghost var before := out;
      NextSize(sizes, dict, rows[..i], out, rows[i]);
      var k := rows[i].size;
      if k !in out {
        order := order + [k];
        out := out[k := []];
      }
      out := out[k := out[k] + [rows[i]]];
      OneMoreRow(dict, rows[..i], before, rows[i], out);
      assert rows[..i + 1] == rows[..i] + [rows[i]];
    }
    assert rows[..|rows|] == rows;
  }

  lemma NothingLoaded(sizes: seq<int>, dict: map<int, seq<Row>>)
    ensures Loaded(dict, [], dict) && SizesAfter(sizes, []) == sizes
  {
    assert forall k <- dict :: dict[k] + [] == dict[k];
  }

  lemma NextSize(sizes: seq<int>, dict: map<int, seq<Row>>, rows: seq<Row>, out: map<int, seq<Row>>, r: Row)
    requires Loaded(dict, rows, out) && forall k :: k in sizes <==> k in dict
    ensures var order := SizesAfter(sizes, rows);
            && (r.size in order <==> r.size in out)
            && SizesAfter(sizes, rows + [r]) == if r.size in order then order else order + [r.size]
  {
    SizesAreKeys(sizes, rows);
    assert (rows + [r])[..|rows|] == rows;
  }

  lemma OneMoreRow(dict: map<int, seq<Row>>, rows: seq<Row>, out: map<int, seq<Row>>, r: Row, out': map<int, seq<Row>>)
    requires Loaded(dict, rows, out)
    requires out' == out[r.size := (if r.size in out then out[r.size] else []) + [r]]
    ensures Loaded(dict, rows + [r], out')
  {
    assert (rows + [r])[..|rows|] == rows;
    forall k
      ensures k in out' <==> k in dict || OfSize(rows + [r], k) != []
      ensures k in out' ==> out'[k] == (if k in dict then dict[k] else []) + OfSize(rows + [r], k)
    {
      var old_, mine := if k in dict then dict[k] else [], OfSize(rows, k);
      assert (old_ + mine) + [r] == old_ + (mine + [r]) && mine + [] == mine && old_ + [] == old_;
    }
  }

  // ---------------------------------------------------------------- the join

  function StoreAt(m: Cells, k: string, act: string, t: Stamp): Cells
  {
    m[k := (if k in m then m[k] else map[])[act := t]]
  }

  /** Store one row: a later row for the same key and action overwrites. */
  function Store(m: Cells, r: Row): Cells
  {
    StoreAt(m, Key(r), r.action, StampOf(r))
  }

  function JoinMap(rows: seq<Row>): (m: Cells)
  {
    if rows == [] then map[] else Store(JoinMap(rows[..|rows| - 1]), rows[|rows| - 1])
  }

  /** The dictionary's iteration order: keys by first occurrence. */
  function KeyOrder(rows: seq<Row>): (ks: seq<string>)
  {
    if rows == [] then []
    else
      var ks, k := KeyOrder(rows[..|rows| - 1]), Key(rows[|rows| - 1]);
      if k in ks then ks else ks + [k]
  }

  /** The join loop of the main script. */
  method BuildJoin(rows: seq<Row>) returns (keys: seq<string>, data: Cells)
    ensures keys == KeyOrder(rows) && data == JoinMap(rows)
  {
    keys, data := [], map[];
    for i := 0 to |rows|
      invariant keys == KeyOrder(rows[..i]) && data == JoinMap(rows[..i])
    {
      KeysAreOrdered(rows[..i]);
      assert rows[..i + 1][..i] == rows[..i];
      var k := Key(rows[i]);
      if k !in data {
        keys := keys + [k];
        data := data[k := map[]];
      }
      data := data[k := data[k][rows[i].action := (rows[i].sec, rows[i].nsec)]];
    }
    assert rows[..|rows|] == rows;
  }

  ghost predicate Distinct(ks: seq<string>)
  {
    forall i, j | 0 <= i < j < |ks| :: ks[i] != ks[j]
  }

  lemma {:induction false} KeysAreOrdered(rows: seq<Row>)
    ensures Distinct(KeyOrder(rows))
    ensures forall k :: k in KeyOrder(rows) <==> k in JoinMap(rows)
  {
    if rows != [] {
      KeysAreOrdered(rows[..|rows| - 1]);
    }
  }

  /** A stamp in nanoseconds. */
  function Instant(t: Stamp): int
  {
    t.0 * 1_000_000_000 + t.1
  }

  function Elapsed(m: Cells, k: string, begin: string, end: string): int
    requires k in m && begin in m[k] && end in m[k]
  {
    (m[k][end].0 - m[k][begin].0) * 1_000_000_000 + m[k][end].1 - m[k][begin].1
  }

  predicate Joined(m: Cells, k: string, begin: string, end: string)
  {
    k in m && begin in m[k] && end in m[k]
  }

  function Latencies(ks: seq<string>, m: Cells, begin: string, end: string): (ls: seq<int>)
  {
    if ks == [] then []
    else (if Joined(m, ks[0], begin, end) then [Elapsed(m, ks[0], begin, end)] else []) +
         Latencies(ks[1..], m, begin, end)
  }

  lemma {:induction false} LatenciesAppend(a: seq<string>, b: seq<string>, m: Cells, begin: string, end: string)
    ensures Latencies(a + b, m, begin, end) == Latencies(a, m, begin, end) + Latencies(b, m, begin, end)
  {
    if a == [] {
      assert a + b == b;
    } else {
      assert (a + b)[1..] == a[1..] + b;
      LatenciesAppend(a[1..], b, m, begin, end);
    }
  }

  /** The latencies are exactly the distances from begin to end of the keys that have both actions. */
  lemma {:induction false} LatenciesOfJoinedKeys(ks: seq<string>, m: Cells, begin: string, end: string)
    ensures forall v :: v in Latencies(ks, m, begin, end) <==>
              exists k :: k in ks && Joined(m, k, begin, end) && Instant(m[k][end]) - Instant(m[k][begin]) == v
  {
    if ks != [] {
      LatenciesOfJoinedKeys(ks[1..], m, begin, end);
      assert ks == [ks[0]] + ks[1..];
      forall v
        ensures v in Latencies(ks, m, begin, end) <==>
                exists k :: k in ks && Joined(m, k, begin, end) && Instant(m[k][end]) - Instant(m[k][begin]) == v
      {
        if v in Latencies(ks[1..], m, begin, end) {
          var k :| k in ks[1..] && Joined(m, k, begin, end) && Instant(m[k][end]) - Instant(m[k][begin]) == v;
          assert k in ks;
        } else if v in Latencies(ks, m, begin, end) {
          assert ks[0] in ks && Joined(m, ks[0], begin, end);
        }
      }
    }
  }

  /** The keys that have both actions, in order. */
  function JoinedKeys(ks: seq<string>, m: Cells, begin: string, end: string): (js: seq<string>)
  {
    if ks == [] then []
    else (if Joined(m, ks[0], begin, end) then [ks[0]] else []) + JoinedKeys(ks[1..], m, begin, end)
  }

  /** `v` is the distance from the key's begin to its end. */
  predicate IsDistance(v: int, m: Cells, k: string, begin: string, end: string)
  {
    Joined(m, k, begin, end) && v == Instant(m[k][end]) - Instant(m[k][begin])
  }

  /** One latency for each of these keys: the distance from its begin to its end. */
  ghost predicate AreDistances(list: seq<int>, js: seq<string>, m: Cells, begin: string, end: string)
  {
    |list| == |js| && forall i | 0 <= i < |list| :: IsDistance(list[i], m, js[i], begin, end)
  }

  lemma {:induction false} LatenciesAreDistances(ks: seq<string>, m: Cells, begin: string, end: string)
    ensures AreDistances(Latencies(ks, m, begin, end), JoinedKeys(ks, m, begin, end), m, begin, end)
  {
    if ks != [] {
      LatenciesAreDistances(ks[1..], m, begin, end);
      if Joined(m, ks[0], begin, end) {
        assert IsDistance(Elapsed(m, ks[0], begin, end), m, ks[0], begin, end);
      }
      hide IsDistance, Joined;
    }
  }

  /** cal_latency: one latency for each key that has both actions, in the order of the keys, namely the
      nanoseconds from its begin to its end. */
  method CalLatency(keys: seq<string>, data: Cells, begin: string, end: string) returns (list: seq<int>)
    requires forall k <- keys :: k in data
    ensures list == Latencies(keys, data, begin, end)
    ensures AreDistances(list, JoinedKeys(keys, data, begin, end), data, begin, end)
  {
    LatenciesAreDistances(keys, data, begin, end);
    hide JoinedKeys, AreDistances;
    list := [];
    for i := 0 to |keys|
      invariant list == Latencies(keys[..i], data, begin, end)
    {
      assert keys[..i + 1] == keys[..i] + [keys[i]];
      LatenciesAppend(keys[..i], [keys[i]], data, begin, end);
      assert [keys[i]][1..] == [];
      var v := data[keys[i]];
      if begin !in v {
        continue;
      }
      if end !in v {
        continue;
      }
      var elapsed := (v[end].0 - v[begin].0) * 1_000_000_000 + v[end].1 - v[begin].1;
      list := list + [elapsed];
    }
    assert keys[..|keys|] == keys;
  }

  // ---------------------------------------------------------------- what the join depends on

  predicate SameCell(r: Row, s: Row)
  {
    Key(r) == Key(s) && r.action == s.action
  }

  /** No two rows of the list disagree about a cell. */
  ghost predicate Consistent(rows: seq<Row>)
  {
    forall r, s | r in rows && s in rows && SameCell(r, s) :: StampOf(r) == StampOf(s)
  }

  ghost predicate Has(rows: seq<Row>, k: string, a: string, t: Stamp)
  {
    exists r :: r in rows && Key(r) == k && r.action == a && StampOf(r) == t
  }

  /** A cell is filled exactly if a row names it, with the stamp of such a row. */
  lemma {:induction false} JoinLookup(rows: seq<Row>)
    ensures forall r <- rows :: Key(r) in JoinMap(rows) && r.action in JoinMap(rows)[Key(r)]
    ensures forall k, a | k in JoinMap(rows) && a in JoinMap(rows)[k] :: Has(rows, k, a, JoinMap(rows)[k][a])
    ensures forall k <- JoinMap(rows) :: exists r :: r in rows && Key(r) == k
  {
    if rows != [] {
      var init, last := rows[..|rows| - 1], rows[|rows| - 1];
      JoinLookup(init);
      var m := JoinMap(rows);
      assert rows == init + [last];
      forall r <- rows ensures Key(r) in m && r.action in m[Key(r)] {
        assert r in init || r == last;
      }
      forall k, a | k in m && a in m[k] ensures Has(rows, k, a, m[k][a]) {
        if k == Key(last) && a == last.action {
          assert last in rows;
        } else {
          assert Has(init, k, a, JoinMap(init)[k][a]);
          var r :| r in init && Key(r) == k && r.action == a && StampOf(r) == m[k][a];
          assert r in rows;
        }
      }
      forall k <- m ensures exists r :: r in rows && Key(r) == k {
        if k == Key(last) {
          assert last in rows;
        } else {
          var r :| r in init && Key(r) == k;
          assert r in rows;
        }
      }
    }
  }

  ghost predicate SameRows(a: seq<Row>, b: seq<Row>)
  {
    forall r :: r in a <==> r in b
  }

  predicate Filled(m: Cells, k: string, act: string)
  {
    k in m && act in m[k]
  }

  lemma CellHasRow(rows: seq<Row>, k: string, act: string) returns (r: Row)
    requires Filled(JoinMap(rows), k, act)
    ensures r in rows && Key(r) == k && r.action == act && StampOf(r) == JoinMap(rows)[k][act]
  {
    JoinLookup(rows);
    assert Has(rows, k, act, JoinMap(rows)[k][act]);
    r :| r in rows && Key(r) == k && r.action == act && StampOf(r) == JoinMap(rows)[k][act];
  }

  lemma CellAgrees(a: seq<Row>, b: seq<Row>, k: string, act: string)
    requires SameRows(a, b) && Consistent(a) && Filled(JoinMap(a), k, act)
    ensures Filled(JoinMap(b), k, act) && JoinMap(b)[k][act] == JoinMap(a)[k][act]
  {
    var r := CellHasRow(a, k, act);
    assert r in b;
    JoinLookup(b);
    var s := CellHasRow(b, k, act);
    Agree(a, r, s);
  }

  lemma Agree(a: seq<Row>, r: Row, s: Row)
    requires Consistent(a) && r in a && s in a && SameCell(r, s)
    ensures StampOf(r) == StampOf(s)
  {
  }

  lemma KeyAgrees(a: seq<Row>, b: seq<Row>, k: string)
    requires SameRows(a, b) && k in JoinMap(a)
    ensures k in JoinMap(b)
  {
    JoinLookup(a);
    JoinLookup(b);
    hide JoinMap;
    var r :| r in a && Key(r) == k;
    assert r in b;
  }

  lemma JoinDependsOnRows(a: seq<Row>, b: seq<Row>)
    requires SameRows(a, b) && Consistent(a)
    ensures JoinMap(a) == JoinMap(b)
  {
    var m, n := JoinMap(a), JoinMap(b);
    assert Consistent(b);
    hide JoinMap, Consistent;
    forall k ensures k in m <==> k in n {
      if k in m { KeyAgrees(a, b, k); }
      if k in n { KeyAgrees(b, a, k); }
    }
    forall k <- m ensures m[k] == n[k] {
      forall act ensures act in m[k] <==> act in n[k]
        ensures act in m[k] ==> m[k][act] == n[k][act]
      {
        if Filled(m, k, act) { CellAgrees(a, b, k, act); }
        if Filled(n, k, act) { CellAgrees(b, a, k, act); }
      }
    }
  }

  /** Row `i` moved to the end. */
  function Last(rows: seq<Row>, i: nat): (p: seq<Row>)
    requires i < |rows|
  {
    rows[..i] + rows[i + 1..] + [rows[i]]
  }

  lemma LastIsPermutation(rows: seq<Row>, i: nat)
    requires i < |rows|
    ensures multiset(Last(rows, i)) == multiset(rows)
    ensures JoinMap(Last(rows, i))[Key(rows[i])][rows[i].action] == StampOf(rows[i])
  {
    var p := Last(rows, i);
    assert rows == rows[..i] + [rows[i]] + rows[i + 1..];
    assert p[..|p| - 1] == rows[..i] + rows[i + 1..];
  }

  /** The join of a list of rows does not depend on their order exactly if the rows are consistent. */
  lemma OrderIndependentIff(rows: seq<Row>)
    ensures (forall p: seq<Row> | multiset(p) == multiset(rows) :: JoinMap(p) == JoinMap(rows)) <==> Consistent(rows)
  {
    if Consistent(rows) {
      forall p: seq<Row> | multiset(p) == multiset(rows) ensures JoinMap(p) == JoinMap(rows) {
        forall r ensures r in rows <==> r in p {
          assert r in rows <==> r in multiset(rows);
          assert r in p <==> r in multiset(p);
        }
        JoinDependsOnRows(rows, p);
      }
    } else {
      var r, s :| r in rows && s in rows && SameCell(r, s) && StampOf(r) != StampOf(s);
      var i :| 0 <= i < |rows| && rows[i] == r;
      var j :| 0 <= j < |rows| && rows[j] == s;
      LastIsPermutation(rows, i);
      LastIsPermutation(rows, j);
      assert JoinMap(Last(rows, i)) != JoinMap(Last(rows, j));
    }
  }
}
