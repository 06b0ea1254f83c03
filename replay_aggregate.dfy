/** The year-replay view's derived data (scatterplot22.js): the records, the
    nested year -> type -> summed count table built by d3.rollup, the sorted
    list of years and the first-appearance list of types. */
module ReplayAggregate {
  import opened Seqs

  /** One literal record { year, type, count } (`type` is a Dafny keyword). */
  datatype Record = Record(year: int, kind: string, count: int)

  /** year -> type -> summed count. */
  type Nested = map<int, map<string, int>>

  /** The record literal of the script. */
  function SampleData(): seq<Record> {
    [ Record(2020, "Painting", 3), Record(2020, "Sculpture", 7), Record(2020, "Digital Art", 4),
      Record(2021, "Painting", 6), Record(2021, "Photography", 5), Record(2021, "Digital Art", 9),
      Record(2022, "Sculpture", 4), Record(2022, "Digital Art", 6),
      Record(2023, "Painting", 7), Record(2023, "Photography", 2), Record(2023, "Sculpture", 5) ]
  }

  // ---------------------------------------------------------------------
  // Reference definitions

  /** Some record has this year and type. */
  predicate Occurs(data: seq<Record>, y: int, t: string) {
    exists i :: 0 <= i < |data| && data[i].year == y && data[i].kind == t
  }

  /** Some record has this year. */
  predicate HasYear(data: seq<Record>, y: int) {
    exists i :: 0 <= i < |data| && data[i].year == y
  }

  /** The sum of `count` over the records of year y and type t. */
  function SumOf(data: seq<Record>, y: int, t: string): int {
    if data == [] then 0
    else (if data[0].year == y && data[0].kind == t then data[0].count else 0) + SumOf(data[1..], y, t)
  }

  lemma {:induction false} SumOfSnoc(data: seq<Record>, d: Record, y: int, t: string)
    ensures SumOf(data + [d], y, t) == SumOf(data, y, t) + (if d.year == y && d.kind == t then d.count else 0)
  {
    if data != [] {
      assert (data + [d])[1..] == data[1..] + [d];
      SumOfSnoc(data[1..], d, y, t);
    }
  }

  // ---------------------------------------------------------------------
  // d3.rollup(data, v => d3.sum(v, d => d.count), d => d.year, d => d.type)

  /** Adds one record to its (year, type) group; a group is created on its
      first record, so no group is ever a zero placeholder. */
  function AddRecord(m: Nested, d: Record): Nested {
    var inner := if d.year in m then m[d.year] else map[];
    var prev := if d.kind in inner then inner[d.kind] else 0;
    m[d.year := inner[d.kind := prev + d.count]]
  }

  /** The rollup, taking the records left to right. */
  function Nest(data: seq<Record>): Nested
    decreases |data|
  {
    if data == [] then map[] else AddRecord(Nest(data[..|data| - 1]), data[|data| - 1])
  }

  /** The rollup holds an entry for (y, t) exactly when some record has that
      year and type, and then it holds their exact sum; it holds a year
      exactly when some record has that year. */
  lemma {:induction false} NestCorrect(data: seq<Record>, y: int, t: string)
    ensures y in Nest(data) <==> HasYear(data, y)
    ensures (y in Nest(data) && t in Nest(data)[y]) <==> Occurs(data, y, t)
    ensures Occurs(data, y, t) ==> Nest(data)[y][t] == SumOf(data, y, t)
  {
    if data != [] {
      var p := data[..|data| - 1];
      var d := data[|data| - 1];
      assert data == p + [d];
      NestCorrect(p, y, t);
      SumOfSnoc(p, d, y, t);
      if HasYear(data, y) && !HasYear(p, y) {
        assert d.year == y;
      }
      if Occurs(data, y, t) && !Occurs(p, y, t) {
        assert d.year == y && d.kind == t;
      }
      if !Occurs(p, y, t) {
        assert SumOf(p, y, t) == 0 by { SumOfAbsent(p, y, t); }
      }
      if HasYear(p, y) {
        var i :| 0 <= i < |p| && p[i].year == y;
        assert data[i].year == y;
      }
      if Occurs(p, y, t) {
        var i :| 0 <= i < |p| && p[i].year == y && p[i].kind == t;
        assert data[i].year == y && data[i].kind == t;
      }
    }
  }

  lemma {:induction false} SumOfAbsent(data: seq<Record>, y: int, t: string)
    requires !Occurs(data, y, t)
    ensures SumOf(data, y, t) == 0
  {
    if data != [] {
      assert data[0].year != y || data[0].kind != t;
      forall i | 0 <= i < |data[1..]| ensures !(data[1..][i].year == y && data[1..][i].kind == t) {
        assert data[1..][i] == data[i + 1];
      }
      SumOfAbsent(data[1..], y, t);
    }
  }

  // ---------------------------------------------------------------------
  // years = Array.from(nested.keys()).sort(d3.ascending)

  /** The record years in data order. */
  function YearsOf(data: seq<Record>): (ys: seq<int>)
    ensures |ys| == |data| && forall i :: 0 <= i < |data| ==> ys[i] == data[i].year
  {
    seq(|data|, i requires 0 <= i < |data| => data[i].year)
  }

  /** The record types in data order. */
  function KindsOf(data: seq<Record>): (ks: seq<string>)
    ensures |ks| == |data| && forall i :: 0 <= i < |data| ==> ks[i] == data[i].kind
  {
    seq(|data|, i requires 0 <= i < |data| => data[i].kind)
  }

  predicate StrictlyIncreasing(s: seq<int>) {
    forall i, j :: 0 <= i < j < |s| ==> s[i] < s[j]
  }

  /** Insertion into an ascending list (one step of sorting the keys). */
  function InsertAsc(x: int, s: seq<int>): (r: seq<int>)
  {
    if s == [] || x <= s[0] then [x] + s else [s[0]] + InsertAsc(x, s[1..])
  }

  lemma {:induction false} InsertAscCorrect(x: int, s: seq<int>)
    requires StrictlyIncreasing(s) && x !in s
    ensures StrictlyIncreasing(InsertAsc(x, s))
    ensures forall z :: z in InsertAsc(x, s) <==> z == x || z in s
  {
    if s != [] && x > s[0] {
      InsertAscCorrect(x, s[1..]);
      var r := InsertAsc(x, s[1..]);
      assert forall k :: 0 <= k < |r| ==> r[k] in r;
      assert forall z :: z in s[1..] ==> z > s[0];
    }
  }

  /** Sorting a list of distinct numbers into ascending order. */
  function SortAsc(s: seq<int>): (r: seq<int>)
  {
    if s == [] then [] else InsertAsc(s[|s| - 1], SortAsc(s[..|s| - 1]))
  }

  lemma {:induction false} SortAscCorrect(s: seq<int>)
    requires NoDup(s)
    ensures StrictlyIncreasing(SortAsc(s))
    ensures forall z :: z in SortAsc(s) <==> z in s
  {
    if s != [] {
      var p := s[..|s| - 1];
      assert NoDup(p);
      SortAscCorrect(p);
      assert s == p + [s[|s| - 1]];
      InsertAscCorrect(s[|s| - 1], SortAsc(p));
    }
  }

  /** Two strictly increasing lists with the same elements are equal. */
  lemma IncreasingUnique(a: seq<int>, b: seq<int>)
    requires StrictlyIncreasing(a) && StrictlyIncreasing(b)
    requires forall z :: z in a <==> z in b
    ensures a == b
  {
    forall z ensures z in a <==> z in b {
    }
    SortedByKeyUnique(a, b, y => y);
  }

  /** The rollup's keys in insertion order, sorted ascending. */
  function Years(data: seq<Record>): seq<int> {
    SortAsc(Distinct(YearsOf(data)))
  }

  /** `years` lists each year of the records once, in strictly ascending
      order, and holds exactly the keys of the rollup. */
  lemma YearsCorrect(data: seq<Record>)
    ensures StrictlyIncreasing(Years(data))
    ensures forall y :: y in Years(data) <==> HasYear(data, y)
    ensures forall y :: y in Years(data) <==> y in Nest(data)
    ensures |Years(data)| > 0 <==> data != []
  {
    var ys := YearsOf(data);
    SortAscCorrect(Distinct(ys));
    forall y ensures y in Years(data) <==> HasYear(data, y) {
      if HasYear(data, y) {
        var i :| 0 <= i < |data| && data[i].year == y;
        assert ys[i] == y;
      }
      if y in Years(data) {
        assert y in ys;
      }
    }
    forall y ensures y in Years(data) <==> y in Nest(data) {
      NestCorrect(data, y, "");
    }
    if data != [] {
      assert ys[0] in Distinct(ys);
    }
  }

  // ---------------------------------------------------------------------
  // types = Array.from(new Set(data.map(d => d.type)))

  /** The distinct types in order of first appearance. */
  function Types(data: seq<Record>): seq<string> {
    Distinct(KindsOf(data))
  }

  /** `types` lists every type of the records exactly once, ordered by the
      position of its first record. */
  lemma TypesCorrect(data: seq<Record>)
    ensures NoDup(Types(data))
    ensures forall t :: t in Types(data) <==> exists i :: 0 <= i < |data| && data[i].kind == t
    ensures forall i, j :: 0 <= i < j < |Types(data)| ==>
              IndexOf(KindsOf(data), Types(data)[i]) < IndexOf(KindsOf(data), Types(data)[j])
  {
    var ks := KindsOf(data);
    DistinctOrder(ks);
    forall t ensures t in Types(data) <==> exists i :: 0 <= i < |data| && data[i].kind == t {
      if t in Types(data) {
        var i :| 0 <= i < |ks| && ks[i] == t;
      }
      if exists i :: 0 <= i < |data| && data[i].kind == t {
        var i :| 0 <= i < |data| && data[i].kind == t;
        assert ks[i] == t;
      }
    }
  }

  // ---------------------------------------------------------------------
  // The sample data

  /** The years that occur in the sample. */
  lemma SampleKeys(data: seq<Record>)
    requires data == SampleData()
    ensures forall y :: HasYear(data, y) <==> y in [2020, 2021, 2022, 2023]
  {
    forall y ensures HasYear(data, y) <==> y in [2020, 2021, 2022, 2023] {
      if y in [2020, 2021, 2022, 2023] {
        assert data[0].year == 2020 && data[3].year == 2021 && data[6].year == 2022 && data[8].year == 2023;
      }
    }
  }

  lemma SampleYears()
    ensures Years(SampleData()) == [2020, 2021, 2022, 2023]
  {
    SampleYearsOf(SampleData());
  }

  /** `years` is the one increasing list holding exactly the years that
      occur in the records. */
  lemma YearsAre(data: seq<Record>, expected: seq<int>)
    requires StrictlyIncreasing(expected)
    requires forall y :: HasYear(data, y) <==> y in expected
    ensures Years(data) == expected
  {
    YearsCorrect(data);
    IncreasingUnique(Years(data), expected);
  }

  lemma SampleYearsOf(data: seq<Record>)
    requires data == SampleData()
    ensures Years(data) == [2020, 2021, 2022, 2023]
  {
    SampleKeys(data);
    YearsAre(data, [2020, 2021, 2022, 2023]);
  }

  /** The concrete figures of the sample: 2020/Sculpture = 7,
      2021/Digital Art = 9 and 2023/Painting = 7. */
  lemma SampleNest()
    ensures 2020 in Nest(SampleData()) && "Sculpture" in Nest(SampleData())[2020]
         && Nest(SampleData())[2020]["Sculpture"] == 7
    ensures 2021 in Nest(SampleData()) && "Digital Art" in Nest(SampleData())[2021]
         && Nest(SampleData())[2021]["Digital Art"] == 9
    ensures 2023 in Nest(SampleData()) && "Painting" in Nest(SampleData())[2023]
         && Nest(SampleData())[2023]["Painting"] == 7
    ensures 2022 in Nest(SampleData()) && "Photography" !in Nest(SampleData())[2022]
  {
    SampleSculpture2020();
    SampleDigitalArt2021();
    SamplePainting2023();
    SamplePhotography2022(SampleData());
  }

  /** 2022 has records but none of Photography, so its table has no
      Photography entry. */
  lemma SamplePhotography2022(data: seq<Record>)
    requires data == SampleData()
    ensures 2022 in Nest(data) && "Photography" !in Nest(data)[2022]
  {
    assert HasYear(data, 2022) && !Occurs(data, 2022, "Photography") by {
      NoPhotography2022(data);
    }
    NestCorrect(data, 2022, "Photography");
  }

  lemma NoPhotography2022(data: seq<Record>)
    requires data == SampleData()
    ensures HasYear(data, 2022) && !Occurs(data, 2022, "Photography")
  {
    assert data[6].year == 2022;
  }

  lemma SampleSculpture2020()
    ensures 2020 in Nest(SampleData()) && "Sculpture" in Nest(SampleData())[2020]
         && Nest(SampleData())[2020]["Sculpture"] == 7
  {
    SampleEntry(SampleData(), 2020, "Sculpture", 1);
    SumSculpture2020();
  }

  lemma SampleDigitalArt2021()
    ensures 2021 in Nest(SampleData()) && "Digital Art" in Nest(SampleData())[2021]
         && Nest(SampleData())[2021]["Digital Art"] == 9
  {
    SampleEntry(SampleData(), 2021, "Digital Art", 5);
    SumDigitalArt2021();
  }

  lemma SamplePainting2023()
    ensures 2023 in Nest(SampleData()) && "Painting" in Nest(SampleData())[2023]
         && Nest(SampleData())[2023]["Painting"] == 7
  {
    SampleEntry(SampleData(), 2023, "Painting", 8);
    SumPainting2023();
  }

  lemma SumSculpture2020() ensures SumOf(SampleData(), 2020, "Sculpture") == 7 {}

  lemma SumDigitalArt2021() ensures SumOf(SampleData(), 2021, "Digital Art") == 9 {}

  lemma SumPainting2023() ensures SumOf(SampleData(), 2023, "Painting") == 7 {}

  lemma SampleEntry(data: seq<Record>, y: int, t: string, i: nat)
    requires i < |data| && data[i].year == y && data[i].kind == t
    ensures y in Nest(data) && t in Nest(data)[y] && Nest(data)[y][t] == SumOf(data, y, t)
  {
    NestCorrect(data, y, t);
  }
}
