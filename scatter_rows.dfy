/** The static bubble timeline's data pipeline (scatterplot.js): the rollup
    of the records into one flat row per year, with a count field and a
    `types_<type>` list per type, and the size-scale domain computed by
    deleting `year` from every row in place, merging the rows left to right
    and taking the largest numeric field. */
module ScatterRows {
  import opened Seqs
  import opened ReplayAggregate

  /** A field value of a row object. `Group` is the rollup's
      `{ count, types }` object; `Undefined` is what reading `.count` or
      `.types` of anything else gives. */
  datatype Value = Num(n: int) | Names(names: seq<string>) | Group(count: int, types: seq<string>) | Undefined

  /** A row object, as its own enumerable fields. */
  type Row = map<string, Value>

  /** The key under which a type's list of record types is stored. */
  function TypesKey(t: string): (k: string)
    ensures |k| == |t| + 6 && k[..6] == "types_" && k[6..] == t
  {
    "types_" + t
  }

  lemma TypesKeyInjective(a: string, b: string)
    ensures TypesKey(a) == TypesKey(b) <==> a == b
  {
    if TypesKey(a) == TypesKey(b) {
      assert a == TypesKey(a)[6..] && b == TypesKey(b)[6..];
    }
  }

  /** A type name that cannot collide with `year` or with a `types_` key. */
  predicate Plain(t: string) {
    t != "year" && !(|t| >= 6 && t[..6] == "types_")
  }

  predicate PlainKinds(data: seq<Record>) {
    forall i :: 0 <= i < |data| ==> Plain(data[i].kind)
  }

  // ---------------------------------------------------------------------
  // d3.rollup(data, v => ({ count: d3.sum(v, d => d.count), types: v.map(d => d.type) }),
  //           d => d.year, d => d.type)

  /** The rollup's outer keys: the years in order of first appearance. */
  function YearOrder(data: seq<Record>): seq<int> {
    Distinct(YearsOf(data))
  }

  /** The types of the records of year y, in data order. */
  function KindsOfYear(data: seq<Record>, y: int): (ks: seq<string>)
    ensures forall t :: t in ks <==> exists i :: 0 <= i < |data| && data[i].year == y && data[i].kind == t
  {
    if data == [] then []
    else
      var rest := KindsOfYear(data[1..], y);
      assert forall i :: 1 <= i < |data| ==> data[i] == data[1..][i - 1];
      if data[0].year == y then [data[0].kind] + rest else rest
  }

  /** `v.map(d => d.type)` for the group of year y and type t. */
  function Matching(data: seq<Record>, y: int, t: string): (ts: seq<string>)
    ensures forall i :: 0 <= i < |ts| ==> ts[i] == t
    ensures |ts| == CountOf(data, y, t)
  {
    if data == [] then []
    else
      var rest := Matching(data[1..], y, t);
      if data[0].year == y && data[0].kind == t then [t] + rest else rest
  }

  /** The number of records of year y and type t. */
  function CountOf(data: seq<Record>, y: int, t: string): nat {
    if data == [] then 0
    else (if data[0].year == y && data[0].kind == t then 1 else 0) + CountOf(data[1..], y, t)
  }

  /** The inner map of year y, as `Object.fromEntries` sees it: one
      `{ count, types }` group per type of that year, in order of first
      appearance. */
  function Groups(data: seq<Record>, y: int): (gs: seq<(string, Value)>)
    ensures |gs| == |Distinct(KindsOfYear(data, y))|
    ensures forall j :: 0 <= j < |gs| ==>
      gs[j].0 == Distinct(KindsOfYear(data, y))[j] &&
      gs[j].1 == Group(SumOf(data, y, gs[j].0), Matching(data, y, gs[j].0))
  {
    var ks := Distinct(KindsOfYear(data, y));
    seq(|ks|, j requires 0 <= j < |ks| => (ks[j], Group(SumOf(data, y, ks[j]), Matching(data, y, ks[j]))))
  }

  // ---------------------------------------------------------------------
  // Object.entries(item).reduce((acc, [key, value]) => ..., {})

  /** The reducer: `year` is copied; any other key stores `value.count`
      under the key and `value.types` under `types_<key>`. */
  function Put(acc: Row, e: (string, Value)): Row {
    if e.0 == "year" then acc[e.0 := e.1]
    else
      var count := if e.1.Group? then Num(e.1.count) else Undefined;
      var types := if e.1.Group? then Names(e.1.types) else Undefined;
      acc[e.0 := count][TypesKey(e.0) := types]
  }

  /** Array.prototype.reduce over the entries, left to right. */
  function Reduce(acc: Row, es: seq<(string, Value)>): Row
    decreases |es|
  {
    if es == [] then acc else Reduce(Put(acc, es[0]), es[1..])
  }

  /** The flattened row of year y: `{ year, ...Object.fromEntries(types) }`
      passed through the reducer. */
  function Flatten(data: seq<Record>, y: int): Row {
    Reduce(map[], [("year", Num(y))] + Groups(data, y))
  }

  /** `aggregatedData`: one flattened row per year, in the rollup's key
      order. */
  function AggregatedData(data: seq<Record>): (rows: seq<Row>)
    ensures |rows| == |YearOrder(data)|
  {
    var ys := YearOrder(data);
    seq(|ys|, i requires 0 <= i < |ys| => Flatten(data, ys[i]))
  }

  // ---------------------------------------------------------------------
  // Properties of the flattening

  /** Key K is written by one of the group entries. */
  predicate Touched(gs: seq<(string, Value)>, K: string) {
    exists j :: 0 <= j < |gs| && (gs[j].0 == K || TypesKey(gs[j].0) == K)
  }

  predicate GroupEntries(gs: seq<(string, Value)>) {
    (forall j :: 0 <= j < |gs| ==> Plain(gs[j].0) && gs[j].1.Group?) &&
    (forall i, j :: 0 <= i < j < |gs| ==> gs[i].0 != gs[j].0)
  }

  /** The entries after the first touch neither the first key nor its
      `types_` key. */
  lemma RestMisses(gs: seq<(string, Value)>)
    requires GroupEntries(gs) && gs != []
    ensures GroupEntries(gs[1..])
    ensures !Touched(gs[1..], gs[0].0) && !Touched(gs[1..], TypesKey(gs[0].0))
  {
    var rest := gs[1..];
    var k0 := gs[0].0;
    forall j | 0 <= j < |rest|
      ensures rest[j].0 != k0 && TypesKey(rest[j].0) != k0
      ensures rest[j].0 != TypesKey(k0) && TypesKey(rest[j].0) != TypesKey(k0)
    {
      assert rest[j] == gs[j + 1];
      TypesKeyInjective(rest[j].0, k0);
    }
  }

  /** A key touched by a later entry is touched by the whole list. */
  lemma TouchedRest(gs: seq<(string, Value)>, K: string)
    requires gs != [] && Touched(gs[1..], K)
    ensures Touched(gs, K)
  {
    var j :| 0 <= j < |gs[1..]| && (gs[1..][j].0 == K || TypesKey(gs[1..][j].0) == K);
    assert gs[j + 1] == gs[1..][j];
  }

  /** Reducing distinct, plain group entries stores each group's count
      under its key and its types under the `types_` key. */
  lemma {:induction false} ReduceWrites(acc: Row, gs: seq<(string, Value)>)
    requires GroupEntries(gs)
    ensures forall j :: 0 <= j < |gs| ==>
      gs[j].0 in Reduce(acc, gs) && Reduce(acc, gs)[gs[j].0] == Num(gs[j].1.count) &&
      TypesKey(gs[j].0) in Reduce(acc, gs) && Reduce(acc, gs)[TypesKey(gs[j].0)] == Names(gs[j].1.types)
    decreases |gs|
  {
    if gs != [] {
      RestMisses(gs);
      ReduceWrites(Put(acc, gs[0]), gs[1..]);
      ReduceKeeps(Put(acc, gs[0]), gs[1..]);
      forall j | 0 < j < |gs| ensures gs[j] == gs[1..][j - 1] {
      }
    }
  }

  /** ... and leaves every other key as it was. */
  lemma {:induction false} ReduceKeeps(acc: Row, gs: seq<(string, Value)>)
    requires GroupEntries(gs)
    ensures forall K :: !Touched(gs, K) ==>
      (K in Reduce(acc, gs) <==> K in acc) && (K in acc ==> Reduce(acc, gs)[K] == acc[K])
    decreases |gs|
  {
    if gs != [] {
      RestMisses(gs);
      ReduceKeeps(Put(acc, gs[0]), gs[1..]);
      forall K | !Touched(gs, K) ensures !Touched(gs[1..], K) {
        if Touched(gs[1..], K) {
          TouchedRest(gs, K);
        }
      }
    }
  }

  /** ... and adds no key that no entry writes. */
  lemma {:induction false} ReduceOnly(acc: Row, gs: seq<(string, Value)>)
    requires GroupEntries(gs)
    ensures forall K :: K in Reduce(acc, gs) ==> K in acc || Touched(gs, K)
    decreases |gs|
  {
    if gs != [] {
      RestMisses(gs);
      ReduceOnly(Put(acc, gs[0]), gs[1..]);
      forall K | K in Reduce(acc, gs) ensures K in acc || Touched(gs, K) {
        if Touched(gs[1..], K) {
          TouchedRest(gs, K);
        }
      }
    }
  }

  /** The group entries of a year are distinct, plain and all groups. */
  lemma GroupsAreEntries(data: seq<Record>, y: int)
    requires PlainKinds(data)
    ensures GroupEntries(Groups(data, y))
  {
    var ks := Distinct(KindsOfYear(data, y));
    var gs := Groups(data, y);
    forall j | 0 <= j < |gs| ensures Plain(gs[j].0) {
      assert ks[j] in KindsOfYear(data, y);
    }
  }

  /** The flattened row is the reducer run over the group entries, from a
      row holding just `year`. */
  lemma FlattenIsReduce(data: seq<Record>, y: int)
    requires PlainKinds(data)
    ensures Flatten(data, y) == Reduce(map["year" := Num(y)], Groups(data, y))
    ensures GroupEntries(Groups(data, y)) && !Touched(Groups(data, y), "year")
  {
    var gs := Groups(data, y);
    assert ([("year", Num(y))] + gs)[1..] == gs;
    GroupsAreEntries(data, y);
    forall j | 0 <= j < |gs| ensures gs[j].0 != "year" && TypesKey(gs[j].0) != "year" {
      assert |TypesKey(gs[j].0)| >= 6;
    }
  }

  /** The flattened row of year y copies `year` unchanged. */
  lemma FlattenYear(data: seq<Record>, y: int)
    requires PlainKinds(data)
    ensures "year" in Flatten(data, y) && Flatten(data, y)["year"] == Num(y)
  {
    FlattenIsReduce(data, y);
    ReduceKeeps(map["year" := Num(y)], Groups(data, y));
  }

  /** For a type t of year y, the row holds the summed count under t and
      the list of its records' types under `types_<t>`. */
  lemma FlattenType(data: seq<Record>, y: int, t: string)
    requires PlainKinds(data) && Occurs(data, y, t)
    ensures var r := Flatten(data, y);
      t in r && r[t] == Num(SumOf(data, y, t)) &&
      TypesKey(t) in r && r[TypesKey(t)] == Names(Matching(data, y, t))
  {
    var gs := Groups(data, y);
    var ks := Distinct(KindsOfYear(data, y));
    FlattenIsReduce(data, y);
    ReduceWrites(map["year" := Num(y)], gs);
    assert t in KindsOfYear(data, y);
    var j :| 0 <= j < |ks| && ks[j] == t;
    assert gs[j].0 == t;
  }

  /** The row holds no other field. */
  lemma FlattenOnly(data: seq<Record>, y: int, K: string)
    requires PlainKinds(data) && K in Flatten(data, y) && K != "year"
    ensures exists t :: Occurs(data, y, t) && (K == t || K == TypesKey(t))
  {
    var gs := Groups(data, y);
    var ks := Distinct(KindsOfYear(data, y));
    FlattenIsReduce(data, y);
    ReduceOnly(map["year" := Num(y)], gs);
    assert Touched(gs, K);
    var j :| 0 <= j < |gs| && (gs[j].0 == K || TypesKey(gs[j].0) == K);
    assert ks[j] in KindsOfYear(data, y);
    assert Occurs(data, y, ks[j]);
  }

  /** `aggregatedData` has one row per distinct year, in order of first
      appearance, each the flattened row of its year. */
  lemma AggregatedRows(data: seq<Record>)
    ensures var rows := AggregatedData(data); var ys := YearOrder(data);
      NoDup(ys) &&
      (forall y :: y in ys <==> HasYear(data, y)) &&
      (forall i, j :: 0 <= i < j < |ys| ==> IndexOf(YearsOf(data), ys[i]) < IndexOf(YearsOf(data), ys[j])) &&
      forall i :: 0 <= i < |rows| ==> rows[i] == Flatten(data, ys[i])
  {
    var ys := YearOrder(data);
    DistinctOrder(YearsOf(data));
    forall y ensures y in ys <==> HasYear(data, y) {
      if HasYear(data, y) {
        var i :| 0 <= i < |data| && data[i].year == y;
        assert YearsOf(data)[i] == y;
      }
      if y in ys {
        assert y in YearsOf(data);
      }
    }
  }

  /** The x domain here, `[...new Set(data.map(d => d.year))]`, is in order
      of first appearance and need not be ascending. */
  lemma YearOrderUnsorted()
    ensures YearOrder([Record(2021, "Painting", 1), Record(2020, "Painting", 1)]) == [2021, 2020]
  {
    var data := [Record(2021, "Painting", 1), Record(2020, "Painting", 1)];
    assert YearsOf(data) == [2021, 2020];
    DistinctUnique(YearsOf(data), [2021, 2020]);
  }

  // ---------------------------------------------------------------------
  // The size-scale domain

  /** `delete curr.year`. */
  function Strip(r: Row): (s: Row)
    ensures "year" !in s
    ensures forall K :: K != "year" ==> (K in s <==> K in r) && (K in r ==> s[K] == r[K])
  {
    r - {"year"}
  }

  /** `aggregatedData.reduce((acc, curr) => { delete curr.year; return { ...acc, ...curr } }, {})`:
      later rows win. */
  function Merge(rows: seq<Row>): Row
    decreases |rows|
  {
    if rows == [] then map[] else Merge(rows[..|rows| - 1]) + Strip(rows[|rows| - 1])
  }

  /** The index of the last row holding K, or -1. */
  function LastWith(rows: seq<Row>, K: string): (j: int)
    ensures -1 <= j < |rows|
    ensures 0 <= j ==> K in rows[j] && forall j' :: j < j' < |rows| ==> K !in rows[j']
    ensures j == -1 ==> forall j' :: 0 <= j' < |rows| ==> K !in rows[j']
    decreases |rows|
  {
    if rows == [] then -1
    else if K in rows[|rows| - 1] then |rows| - 1
    else
      var p := rows[..|rows| - 1];
      assert forall j' :: 0 <= j' < |p| ==> p[j'] == rows[j'];
      LastWith(p, K)
  }

  /** No merged row has `year`. */
  lemma {:induction false} MergeNoYear(rows: seq<Row>)
    ensures "year" !in Merge(rows)
    decreases |rows|
  {
    if rows != [] {
      MergeNoYear(rows[..|rows| - 1]);
    }
  }

  /** Any other key is in the merge exactly when some row has it, with its
      value in the last row that has it: later rows overwrite earlier ones. */
  lemma {:induction false} MergeLast(rows: seq<Row>, K: string)
    requires K != "year"
    ensures K in Merge(rows) <==> LastWith(rows, K) >= 0
    ensures K in Merge(rows) ==> Merge(rows)[K] == rows[LastWith(rows, K)][K]
    decreases |rows|
  {
    if rows != [] {
      MergeLast(rows[..|rows| - 1], K);
    }
  }

  /** After the merge, each type holds the summed count of the last year
      (in row order) in which it occurs: earlier years are overwritten. */
  lemma MergedCount(data: seq<Record>, i: int)
    requires PlainKinds(data) && 0 <= i < |data|
    ensures var rows := AggregatedData(data); var ys := YearOrder(data);
      var t := data[i].kind; var j := LastWith(rows, t);
      t in Merge(rows) && 0 <= j < |ys| && Occurs(data, ys[j], t) &&
      (forall j' :: j < j' < |ys| ==> !Occurs(data, ys[j'], t)) &&
      Merge(rows)[t] == Num(SumOf(data, ys[j], t))
  {
    var rows := AggregatedData(data);
    var ys := YearOrder(data);
    var t := data[i].kind;
    assert (forall y :: y in ys <==> HasYear(data, y)) &&
      forall k :: 0 <= k < |rows| ==> rows[k] == Flatten(data, ys[k]) by {
      AggregatedRows(data);
    }
    assert HasYear(data, data[i].year);
    var k :| 0 <= k < |ys| && ys[k] == data[i].year;
    FlattenType(data, ys[k], t);
    var j := LastWith(rows, t);
    MergeLast(rows, t);
    FlattenPlainOccurs(data, ys[j], t);
    FlattenType(data, ys[j], t);
    forall j' | j < j' < |ys| ensures !Occurs(data, ys[j'], t) {
      FlattenLacks(data, ys[j'], t);
    }
  }

  /** A plain key of a year's row is a type that occurs in that year. */
  lemma FlattenPlainOccurs(data: seq<Record>, y: int, t: string)
    requires PlainKinds(data) && Plain(t) && t in Flatten(data, y)
    ensures Occurs(data, y, t)
  {
    FlattenOnly(data, y, t);
    var t' :| Occurs(data, y, t') && (t == t' || t == TypesKey(t'));
    var i' :| 0 <= i' < |data| && data[i'].year == y && data[i'].kind == t';
    assert Plain(t');
  }

  /** A type missing from a year's row does not occur in that year. */
  lemma FlattenLacks(data: seq<Record>, y: int, t: string)
    requires PlainKinds(data) && t !in Flatten(data, y)
    ensures !Occurs(data, y, t)
  {
    if Occurs(data, y, t) {
      FlattenType(data, y, t);
    }
  }

  /** The only numbers in the merge are the type counts. */
  lemma MergedNumbers(data: seq<Record>, K: string)
    requires PlainKinds(data)
    requires K in Merge(AggregatedData(data)) && Merge(AggregatedData(data))[K].Num?
    ensures exists i :: 0 <= i < |data| && data[i].kind == K
  {
    var rows := AggregatedData(data);
    var ys := YearOrder(data);
    AggregatedRows(data);
    MergeNoYear(rows);
    MergeLast(rows, K);
    var j := LastWith(rows, K);
    FlattenOnly(data, ys[j], K);
    var t :| Occurs(data, ys[j], t) && (K == t || K == TypesKey(t));
    FlattenType(data, ys[j], t);
    assert K == t;
  }

  /** v is the largest number among the values of m at the keys ks, or None
      when none of them is a number. */
  predicate IsMaxOver(v: Option<int>, m: Row, ks: set<string>)
    requires ks <= m.Keys
  {
    (v.None? <==> forall K :: K in ks ==> !m[K].Num?) &&
    (v.Some? ==> (exists K :: K in ks && m[K] == Num(v.value)) &&
                 forall K :: K in ks && m[K].Num? ==> m[K].n <= v.value)
  }

  /** `d3.max(Object.values(m).filter(item => typeof item === 'number'))`. */
  predicate IsMaxNumber(v: Option<int>, m: Row) {
    IsMaxOver(v, m, m.Keys)
  }

  /** The largest numeric value of m; the other values are filtered out. */
  method MaxNumber(m: Row) returns (v: Option<int>)
    ensures IsMaxNumber(v, m)
  {
    v := None;
    var todo := m.Keys;
    ghost var done: set<string> := {};
    while todo != {}
      invariant todo + done == m.Keys && todo !! done
      invariant IsMaxOver(v, m, done)
      decreases |todo|
    {
      var K :| K in todo;
      if m[K].Num? && (v.None? || m[K].n > v.value) {
        v := Some(m[K].n);
      }
      todo := todo - {K};
      done := done + {K};
    }
  }

  /** The rows with `year` deleted. */
  function StripAll(rows: seq<Row>): (r: seq<Row>)
    ensures |r| == |rows| && forall i :: 0 <= i < |rows| ==> r[i] == Strip(rows[i])
  {
    seq(|rows|, i requires 0 <= i < |rows| => Strip(rows[i]))
  }

  /** The domain computation on `aggregatedData`: deletes `year` from every
      row in place, merges the rows, and returns the largest number among
      the merged values. */
  method SizeDomain(rows: array<Row>) returns (max: Option<int>)
    modifies rows
    ensures rows[..] == StripAll(old(rows[..]))
    ensures IsMaxNumber(max, Merge(old(rows[..])))
  {
    ghost var orig := rows[..];
    var acc: Row := map[];
    for i := 0 to rows.Length
      invariant rows[..i] == StripAll(orig)[..i]
      invariant rows[i..] == orig[i..]
      invariant acc == Merge(orig[..i])
    {
      assert orig[..i + 1][..i] == orig[..i];
      assert rows[i] == orig[i];
      rows[i] := rows[i] - {"year"};
      acc := acc + rows[i];
    }
    assert orig[..rows.Length] == orig;
    max := MaxNumber(acc);
  }

  // ---------------------------------------------------------------------
  // The domain on the built-in records

  /** In year order the rollup keys ascend when the records do. */
  lemma YearOrderAscending(data: seq<Record>)
    requires forall i, j :: 0 <= i <= j < |data| ==> data[i].year <= data[j].year
    ensures YearOrder(data) == Years(data)
  {
    var s := YearsOf(data);
    var r := YearOrder(data);
    DistinctOrder(s);
    forall i, j | 0 <= i < j < |r| ensures r[i] < r[j] {
      var a := IndexOf(s, r[i]);
      var b := IndexOf(s, r[j]);
      assert s[a] == r[i] && s[b] == r[j];
    }
    AggregatedRows(data);
    YearsCorrect(data);
    IncreasingUnique(r, Years(data));
  }

  /** On the built-in records the years already appear in ascending order. */
  lemma SampleYearOrder()
    ensures YearOrder(SampleData()) == [2020, 2021, 2022, 2023]
  {
    YearOrderAscending(SampleData());
    SampleYears();
  }

  lemma SumDigitalArt2022() ensures SumOf(SampleData(), 2022, "Digital Art") == 6 {}
  /** No built-in record is Digital Art from 2023. */
  lemma NoDigitalArt2023(data: seq<Record>)
    requires data == SampleData()
    ensures !Occurs(data, 2023, "Digital Art")
  {
  }
  lemma SumPhotography2023() ensures SumOf(SampleData(), 2023, "Photography") == 2 {}
  lemma SumSculpture2023() ensures SumOf(SampleData(), 2023, "Sculpture") == 5 {}

  /** A name starting with neither `t` nor `y` is plain. */
  lemma PlainByHead(t: string)
    requires |t| > 0 && t[0] != 't' && t[0] != 'y'
    ensures Plain(t)
  {
    assert "year"[0] == 'y';
    if |t| >= 6 {
      assert t[..6][0] == t[0];
    }
  }

  lemma SamplePlain(data: seq<Record>)
    requires data == SampleData()
    ensures PlainKinds(data)
  {
    forall i | 0 <= i < |data| ensures Plain(data[i].kind) {
      SampleKinds(data, i);
      PlainByHead(data[i].kind);
    }
  }

  /** The merged count of the type of record i comes from a year no earlier
      than that record's `k`-th year. */
  lemma MergedAfter(data: seq<Record>, i: int, k: int) returns (j: int)
    requires PlainKinds(data) && 0 <= i < |data|
    requires 0 <= k < |YearOrder(data)| && YearOrder(data)[k] == data[i].year
    ensures k <= j < |YearOrder(data)| && Occurs(data, YearOrder(data)[j], data[i].kind)
    ensures var m := Merge(AggregatedData(data));
      data[i].kind in m && m[data[i].kind] == Num(SumOf(data, YearOrder(data)[j], data[i].kind))
  {
    MergedCount(data, i);
    j := LastWith(AggregatedData(data), data[i].kind);
    assert Occurs(data, YearOrder(data)[k], data[i].kind);
  }

  lemma SamplePainting(data: seq<Record>)
    requires data == SampleData()
    ensures var m := Merge(AggregatedData(data));
      "Painting" in m && m["Painting"] == Num(7)
  {
    SamplePlain(data);
    SampleYearOrder();
    var j := MergedAfter(data, 8, 3);
    SumPainting2023();
  }

  lemma SampleSculpture(data: seq<Record>)
    requires data == SampleData()
    ensures var m := Merge(AggregatedData(data));
      "Sculpture" in m && m["Sculpture"] == Num(5)
  {
    SamplePlain(data);
    SampleYearOrder();
    var j := MergedAfter(data, 10, 3);
    SumSculpture2023();
  }

  lemma SamplePhotography(data: seq<Record>)
    requires data == SampleData()
    ensures var m := Merge(AggregatedData(data));
      "Photography" in m && m["Photography"] == Num(2)
  {
    SamplePlain(data);
    SampleYearOrder();
    var j := MergedAfter(data, 9, 3);
    SumPhotography2023();
  }

  /** Digital art last occurs in 2022, so its merged count is its 2022
      count, 6, and not its larger 2021 count. */
  lemma SampleDigitalArt(data: seq<Record>)
    requires data == SampleData()
    ensures var m := Merge(AggregatedData(data));
      "Digital Art" in m && m["Digital Art"] == Num(6)
  {
    SamplePlain(data);
    SampleYearOrder();
    var j := MergedAfter(data, 7, 2);
    if j == 2 {
      SumDigitalArt2022();
    } else {
      NoDigitalArt2023(data);
    }
  }

  /** Every built-in record has one of the four types. */
  lemma SampleKinds(data: seq<Record>, i: int)
    requires data == SampleData() && 0 <= i < |data|
    ensures data[i].kind in ["Painting", "Sculpture", "Digital Art", "Photography"]
  {
  }

  /** The merged numbers of the built-in records sit at their four types. */
  lemma SampleNumberKeys(data: seq<Record>, K: string)
    requires data == SampleData()
    requires K in Merge(AggregatedData(data)) && Merge(AggregatedData(data))[K].Num?
    ensures K in ["Painting", "Sculpture", "Digital Art", "Photography"]
  {
    SamplePlain(data);
    MergedNumbers(data, K);
    var i :| 0 <= i < |data| && data[i].kind == K;
    SampleKinds(data, i);
  }

  /** The merged counts of the four types are at most 7. */
  lemma BoundByType(m: Row, K: string)
    requires "Painting" in m && m["Painting"] == Num(7)
    requires "Sculpture" in m && m["Sculpture"] == Num(5)
    requires "Photography" in m && m["Photography"] == Num(2)
    requires "Digital Art" in m && m["Digital Art"].Num? && m["Digital Art"].n <= 6
    requires K in ["Painting", "Sculpture", "Digital Art", "Photography"] && K in m && m[K].Num?
    ensures m[K].n <= 7
  {
  }

  /** A largest number of 7, reached at `Painting`. */
  lemma MaxIsSeven(m: Row, v: Option<int>)
    requires IsMaxNumber(v, m)
    requires "Painting" in m && m["Painting"] == Num(7)
    requires forall K :: K in m && m[K].Num? ==> m[K].n <= 7
    ensures v == Some(7)
  {
    assert v.Some? && v.value >= 7;
    var K :| K in m && m[K] == Num(v.value);
  }

  /** The size domain of the built-in records ends at 7, the 2023 painting
      count, although the 2021 digital-art record counts 9: that total is
      overwritten by the later 2022 one. */
  lemma SampleDomain(data: seq<Record>, v: Option<int>)
    requires data == SampleData()
    requires IsMaxNumber(v, Merge(AggregatedData(data)))
    ensures v == Some(7)
  {
    var m := Merge(AggregatedData(data));
    SamplePainting(data);
    SampleSculpture(data);
    SamplePhotography(data);
    SampleDigitalArt(data);
    forall K | K in m && m[K].Num? ensures m[K].n <= 7 {
      SampleNumberKeys(data, K);
      BoundByType(m, K);
    }
    MaxIsSeven(m, v);
  }

  // ---------------------------------------------------------------------
  // The dots

  /** A drawn circle: its x band (year), y band (type) and radius. */
  datatype Dot = Dot(year: int, kind: string, r: real)

  /** `d3.scaleLinear().domain([0, hi]).range([5, 20])` at c, without
      clamping; a degenerate domain maps everything to the middle of the
      range. */
  function SizeScale(hi: int, c: int): (r: real)
    ensures hi > 0 && 0 <= c <= hi ==> 5.0 <= r <= 20.0
    ensures hi > 0 && c > hi ==> r > 20.0
    ensures hi == 0 ==> r == 12.5
  {
    if hi == 0 then 12.5
    else
      RatioBounds(c as real, hi as real);
      5.0 + 15.0 * ((c as real) / (hi as real))
  }

  /** Where c / h lies against 0 and 1 when h is positive. */
  lemma RatioBounds(c: real, h: real)
    requires h != 0.0
    ensures h > 0.0 && 0.0 <= c ==> 0.0 <= c / h
    ensures h > 0.0 && c <= h ==> c / h <= 1.0
    ensures h > 0.0 && c > h ==> c / h > 1.0
  {
    var q := c / h;
    assert q * h == c;
    if h > 0.0 && q > 1.0 {
      assert q * h > 1.0 * h;
    }
    if h > 0.0 && q < 0.0 {
      assert q * h < 0.0;
    }
  }

  /** The scale grows with the count. */
  lemma SizeScaleMonotone(hi: int, c: int, d: int)
    requires hi > 0 && c <= d
    ensures SizeScale(hi, c) <= SizeScale(hi, d)
  {
    var h := hi as real;
    assert (d as real) / h - (c as real) / h == ((d - c) as real) / h;
    RatioBounds((d - c) as real, h);
  }

  /** `svg.selectAll("circle").data(data).enter().append("circle")`: one dot
      per raw record, not per aggregated year and type. */
  function Dots(data: seq<Record>, hi: int): (ds: seq<Dot>)
    ensures |ds| == |data|
    ensures forall i :: 0 <= i < |data| ==>
      ds[i].year == data[i].year && ds[i].kind == data[i].kind && ds[i].r == SizeScale(hi, data[i].count)
  {
    if data == [] then []
    else [Dot(data[0].year, data[0].kind, SizeScale(hi, data[0].count))] + Dots(data[1..], hi)
  }

  /** With the domain as computed, the built-in record of 2021 digital art
      (count 9) gets a radius beyond the top of the range. */
  lemma SampleOversized(data: seq<Record>, v: Option<int>)
    requires data == SampleData()
    requires IsMaxNumber(v, Merge(AggregatedData(data)))
    ensures v.Some? && Dots(data, v.value)[5].r > 20.0
  {
    SampleDomain(data, v);
  }

  /** The largest record count, or None without records: the domain the
      dots' radii need. */
  function MaxCount(data: seq<Record>): (m: Option<int>)
    ensures m.None? <==> data == []
    ensures m.Some? ==> (exists i :: 0 <= i < |data| && data[i].count == m.value) &&
                        forall i :: 0 <= i < |data| ==> data[i].count <= m.value
  {
    if data == [] then None
    else
      var rest := MaxCount(data[1..]);
      assert forall i :: 1 <= i < |data| ==> data[i] == data[1..][i - 1];
      if rest.None? || data[0].count >= rest.value then Some(data[0].count) else rest
  }

  /** With the domain ending at the largest record count, every dot's radius
      lies within the range [5, 20]. */
  lemma MaxCountDotsInRange(data: seq<Record>)
    requires forall i :: 0 <= i < |data| ==> data[i].count > 0
    ensures var m := MaxCount(data);
      m.Some? ==> forall i :: 0 <= i < |data| ==> 5.0 <= Dots(data, m.value)[i].r <= 20.0
  {
    var m := MaxCount(data);
    if m.Some? {
      var ds := Dots(data, m.value);
    }
  }
}

