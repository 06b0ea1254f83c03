/** The travel-footprint map (maps.js): per-city marker styles, the visit
    and province totals, the cards sorted by visits, the marker radius on
    zoom and the back-fill of each marker's visit count by coordinates.
    JavaScript numbers are modelled as `int` (visit counts) and `real`
    (coordinates, radii, opacities). */
module Travel {
  import opened Seqs

  /** One entry of `cityData`. */
  datatype City = City(name: string, province: string, lat: real, lng: real, visits: int)

  /** The options object of a circle marker. */
  datatype DotStyle = DotStyle(radius: real, fillColor: string, color: string, weight: real,
                               opacity: real, fillOpacity: real, visits: int)

  /** A circle marker on the map: where it sits and its options. */
  datatype Marker = Marker(lat: real, lng: real, options: DotStyle)

  /** One card of the visit list: the city, its province and its visits. */
  datatype Card = Card(name: string, province: string, visits: int)

  /** The three statistics shown under the map. */
  datatype Stats = Stats(cities: nat, provinces: nat, visits: int)

  function Min(a: real, b: real): (m: real)
    ensures m <= a && m <= b && (m == a || m == b)
  {
    if a <= b then a else b
  }

  // ---------------------------------------------------------------------
  // getDotStyle

  const MaxDotRadius: real := 18.0
  const MaxFillOpacity: real := 0.9

  /** The marker options for a city visited v times: radius and fill
      opacity grow linearly with v up to a cap, and v itself is recorded. */
  function GetDotStyle(v: int): (s: DotStyle)
    ensures s.radius <= MaxDotRadius && s.radius <= 6.0 + 2.5 * (v as real)
    ensures s.radius == MaxDotRadius || s.radius == 6.0 + 2.5 * (v as real)
    ensures s.fillOpacity <= MaxFillOpacity && s.fillOpacity <= 0.5 + 0.08 * (v as real)
    ensures s.fillOpacity == MaxFillOpacity || s.fillOpacity == 0.5 + 0.08 * (v as real)
    ensures s.visits == v
    ensures s.fillColor == "#e74c3c" && s.color == "#c0392b" && s.weight == 1.5 && s.opacity == 1.0
  {
    DotStyle(Min(MaxDotRadius, 6.0 + (v as real) * 2.5), "#e74c3c", "#c0392b", 1.5, 1.0,
             Min(MaxFillOpacity, 0.5 + (v as real) * 0.08), v)
  }

  /** More visits never give a smaller or fainter dot. */
  lemma DotStyleMonotone(v: int, w: int)
    requires v <= w
    ensures GetDotStyle(v).radius <= GetDotStyle(w).radius
    ensures GetDotStyle(v).fillOpacity <= GetDotStyle(w).fillOpacity
  {
  }

  /** Both caps are reached from five visits on, and not before. */
  lemma DotStyleSaturates(v: int)
    ensures GetDotStyle(v).radius == MaxDotRadius <==> v >= 5
    ensures GetDotStyle(v).fillOpacity == MaxFillOpacity <==> v >= 5
  {
    if v <= 4 {
      assert (v as real) * 2.5 <= 10.0;
      assert (v as real) * 0.08 <= 0.32;
    }
  }

  // ---------------------------------------------------------------------
  // The forEach over cityData: totals, provinces and markers

  /** The sum of the visits. */
  function SumVisits(cs: seq<City>): int {
    if cs == [] then 0 else SumVisits(cs[..|cs| - 1]) + cs[|cs| - 1].visits
  }

  /** The provinces of the cities, in order. */
  function ProvincesOf(cs: seq<City>): (ps: seq<string>)
    ensures |ps| == |cs| && forall i :: 0 <= i < |cs| ==> ps[i] == cs[i].province
  {
    seq(|cs|, i requires 0 <= i < |cs| => cs[i].province)
  }

  /** The marker placed for a city. */
  function MarkerFor(c: City): (m: Marker)
    ensures m.lat == c.lat && m.lng == c.lng && m.options == GetDotStyle(c.visits)
  {
    Marker(c.lat, c.lng, GetDotStyle(c.visits))
  }

  /** One pass over the cities: adds up the visits, collects the provinces
      in a set and creates one marker per city, in order. */
  method PlaceCities(cities: seq<City>) returns (totalVisits: int, provinces: set<string>, markers: seq<Marker>)
    ensures totalVisits == SumVisits(cities)
    ensures provinces == set i | 0 <= i < |cities| :: cities[i].province
    ensures |markers| == |cities| && forall i :: 0 <= i < |cities| ==> markers[i] == MarkerFor(cities[i])
  {
    totalVisits := 0;
    provinces := {};
    markers := [];
    for i := 0 to |cities|
      invariant totalVisits == SumVisits(cities[..i])
      invariant provinces == set k | 0 <= k < i :: cities[k].province
      invariant |markers| == i && forall k :: 0 <= k < i ==> markers[k] == MarkerFor(cities[k])
    {
      assert cities[..i + 1][..i] == cities[..i];
      totalVisits := totalVisits + cities[i].visits;
      provinces := provinces + {cities[i].province};
      markers := markers + [MarkerFor(cities[i])];
    }
    assert cities[..|cities|] == cities;
  }

  /** The province count is the number of distinct provinces. */
  lemma ProvinceCount(cities: seq<City>)
    ensures |set i | 0 <= i < |cities| :: cities[i].province| == |Distinct(ProvincesOf(cities))|
  {
    var ps := ProvincesOf(cities);
    DistinctCard(ps);
    assert (set i | 0 <= i < |cities| :: cities[i].province) == (set x | x in ps) by {
      forall x | x in ps ensures x in set i | 0 <= i < |cities| :: cities[i].province {
        var i :| 0 <= i < |ps| && ps[i] == x;
      }
    }
  }

  /** The statistics: the number of cities, of provinces and of visits. */
  method Totals(cities: seq<City>) returns (stats: Stats, markers: seq<Marker>)
    ensures stats.cities == |cities|
    ensures stats.provinces == |Distinct(ProvincesOf(cities))|
    ensures stats.visits == SumVisits(cities)
    ensures |markers| == |cities| && forall i :: 0 <= i < |cities| ==> markers[i] == MarkerFor(cities[i])
  {
    var total, provinces;
    total, provinces, markers := PlaceCities(cities);
    ProvinceCount(cities);
    stats := Stats(|cities|, |provinces|, total);
  }

  /** The sum of visits splits over a concatenation. */
  lemma {:induction false} SumVisitsAppend(a: seq<City>, b: seq<City>)
    ensures SumVisits(a + b) == SumVisits(a) + SumVisits(b)
    decreases |b|
  {
    if b == [] {
      assert a + b == a;
    } else {
      var b' := b[..|b| - 1];
      assert (a + b)[..|a + b| - 1] == a + b';
      assert (a + b)[|a + b| - 1] == b[|b| - 1];
      SumVisitsAppend(a, b');
    }
  }

  /** The total does not depend on the order of the cities. */
  lemma {:induction false} SumVisitsPermutation(a: seq<City>, b: seq<City>)
    requires multiset(a) == multiset(b)
    ensures SumVisits(a) == SumVisits(b)
    decreases |a|
  {
    if a != [] {
      var x := a[|a| - 1];
      var a' := a[..|a| - 1];
      assert a == a' + [x];
      assert x in multiset(b);
      var k :| 0 <= k < |b| && b[k] == x;
      var b' := b[..k] + b[k + 1..];
      assert b == b[..k] + [x] + b[k + 1..];
      assert multiset(b) == multiset(b[..k]) + multiset{x} + multiset(b[k + 1..]);
      assert multiset(a) == multiset(a') + multiset{x};
      assert multiset(b') == multiset(b[..k]) + multiset(b[k + 1..]);
      assert multiset(a') == multiset(a) - multiset{x};
      assert multiset(b') == multiset(b) - multiset{x};
      SumVisitsPermutation(a', b');
      SumVisitsAppend(b[..k], [x]);
      SumVisitsAppend(b[..k] + [x], b[k + 1..]);
      SumVisitsAppend(b[..k], b[k + 1..]);
    }
  }

  // ---------------------------------------------------------------------
  // cityData.sort((a, b) => b.visits - a.visits)

  /** Ordered by visits, most visited first. */
  predicate SortedDesc(s: seq<City>) {
    forall i, j :: 0 <= i < j < |s| ==> s[i].visits >= s[j].visits
  }

  /** Inserts x before the first city with fewer visits, so after every
      city with as many visits or more. */
  function InsertDesc(x: City, s: seq<City>): seq<City>
    decreases |s|
  {
    if s == [] then [x]
    else if s[0].visits < x.visits then [x] + s
    else [s[0]] + InsertDesc(x, s[1..])
  }

  /** The stable descending sort, as an insertion of each city in turn. */
  function SortDesc(s: seq<City>): seq<City>
    decreases |s|
  {
    if s == [] then [] else InsertDesc(s[|s| - 1], SortDesc(s[..|s| - 1]))
  }

  /** The cities with exactly v visits, in order. */
  function WithVisits(s: seq<City>, v: int): (r: seq<City>)
    ensures forall i :: 0 <= i < |r| ==> r[i].visits == v
    decreases |s|
  {
    if s == [] then []
    else
      var rest := WithVisits(s[..|s| - 1], v);
      if s[|s| - 1].visits == v then rest + [s[|s| - 1]] else rest
  }

  /** Only cities of s are picked. */
  lemma {:induction false} WithVisitsIn(s: seq<City>, v: int)
    ensures forall c :: c in WithVisits(s, v) ==> c in s
    decreases |s|
  {
    if s != [] {
      var p := s[..|s| - 1];
      WithVisitsIn(p, v);
      assert forall c :: c in p ==> c in s;
    }
  }

  /** Nothing is picked when no city has v visits. */
  lemma {:induction false} WithVisitsNone(s: seq<City>, v: int)
    requires forall i :: 0 <= i < |s| ==> s[i].visits != v
    ensures WithVisits(s, v) == []
    decreases |s|
  {
    if s != [] {
      var p := s[..|s| - 1];
      assert forall i :: 0 <= i < |p| ==> p[i] == s[i];
      WithVisitsNone(p, v);
    }
  }

  lemma {:induction false} WithVisitsAppend(a: seq<City>, b: seq<City>, v: int)
    ensures WithVisits(a + b, v) == WithVisits(a, v) + WithVisits(b, v)
    decreases |b|
  {
    if b == [] {
      assert a + b == a;
    } else {
      var b' := b[..|b| - 1];
      assert (a + b)[..|a + b| - 1] == a + b';
      assert (a + b)[|a + b| - 1] == b[|b| - 1];
      WithVisitsAppend(a, b', v);
    }
  }

  /** The position of the first city with fewer than v visits, or |s|. */
  function FirstFewer(s: seq<City>, v: int): (p: int)
    ensures 0 <= p <= |s|
    ensures forall k :: 0 <= k < p ==> s[k].visits >= v
    ensures p == |s| || s[p].visits < v
    decreases |s|
  {
    if s == [] || s[0].visits < v then 0 else FirstFewer(s[1..], v) + 1
  }

  /** InsertDesc puts x at the first position p whose city has fewer visits. */
  lemma {:induction false} InsertDescAt(x: City, s: seq<City>, p: int)
    requires 0 <= p <= |s|
    requires forall k :: 0 <= k < p ==> s[k].visits >= x.visits
    requires p == |s| || s[p].visits < x.visits
    ensures InsertDesc(x, s) == s[..p] + [x] + s[p..]
    decreases |s|
  {
    if s != [] && p > 0 {
      InsertDescAt(x, s[1..], p - 1);
      assert s[..p] == [s[0]] + s[1..][..p - 1];
      assert s[p..] == s[1..][p - 1..];
    }
  }

  /** Splicing x into a sorted list just before its first city with fewer
      visits keeps it sorted. */
  lemma SpliceSorted(x: City, s: seq<City>, p: int)
    requires SortedDesc(s) && 0 <= p <= |s|
    requires forall k :: 0 <= k < p ==> s[k].visits >= x.visits
    requires p == |s| || s[p].visits < x.visits
    ensures SortedDesc(s[..p] + [x] + s[p..])
  {
    var r := s[..p] + [x] + s[p..];
    assert forall k :: 0 <= k < p ==> r[k] == s[k];
    assert forall k :: p < k < |r| ==> r[k] == s[k - 1];
    forall i, j | 0 <= i < j < |r| ensures r[i].visits >= r[j].visits {
      if j == p {
        assert s[i].visits >= x.visits;
      } else if i == p {
        assert s[p].visits >= s[j - 1].visits;
      }
    }
  }

  lemma SpliceMultiset(x: City, s: seq<City>, p: int)
    requires 0 <= p <= |s|
    ensures multiset(s[..p] + [x] + s[p..]) == multiset(s) + multiset{x}
  {
    assert s == s[..p] + s[p..];
  }

  /** Inserting into a sorted list keeps it sorted and adds exactly x. */
  lemma InsertDescSorted(x: City, s: seq<City>)
    requires SortedDesc(s)
    ensures SortedDesc(InsertDesc(x, s))
    ensures multiset(InsertDesc(x, s)) == multiset(s) + multiset{x}
  {
    var p := FirstFewer(s, x.visits);
    SpliceSorted(x, s, p);
    SpliceMultiset(x, s, p);
    InsertDescAt(x, s, p);
  }

  /** Splicing x in ahead of cities that all have fewer visits puts it
      after every city with the same visits. */
  lemma SpliceTies(x: City, front: seq<City>, back: seq<City>, v: int)
    requires forall k :: 0 <= k < |back| ==> back[k].visits < x.visits
    ensures WithVisits(front + [x] + back, v) ==
              if x.visits == v then WithVisits(front + back, v) + [x] else WithVisits(front + back, v)
  {
    WithVisitsAppend(front + [x], back, v);
    WithVisitsAppend(front, [x], v);
    WithVisitsAppend(front, back, v);
    assert WithVisits([x], v) == if x.visits == v then [x] else [] by {
      assert [x][..0] == [];
    }
    if x.visits == v {
      WithVisitsNone(back, v);
    }
  }

  /** In a sorted list, the city spliced in before the first city with
      fewer visits comes after every city with the same visits. */
  lemma SpliceTiesSorted(x: City, s: seq<City>, p: int, v: int)
    requires SortedDesc(s) && 0 <= p <= |s|
    requires p == |s| || s[p].visits < x.visits
    ensures WithVisits(s[..p] + [x] + s[p..], v) ==
              if x.visits == v then WithVisits(s, v) + [x] else WithVisits(s, v)
  {
    var front, back := s[..p], s[p..];
    assert s == front + back;
    forall k | 0 <= k < |back| ensures back[k].visits < x.visits {
      assert back[k] == s[p + k];
      assert s[p].visits >= s[p + k].visits;
    }
    SpliceTies(x, front, back, v);
  }

  /** The inserted city comes after every city with the same visits. */
  lemma InsertDescTies(x: City, s: seq<City>, v: int)
    requires SortedDesc(s)
    ensures WithVisits(InsertDesc(x, s), v) ==
              if x.visits == v then WithVisits(s, v) + [x] else WithVisits(s, v)
  {
    var p := FirstFewer(s, x.visits);
    SpliceTiesSorted(x, s, p, v);
    InsertDescAt(x, s, p);
  }

  /** The sort is ordered by visits. */
  lemma {:induction false} SortDescSorted(s: seq<City>)
    ensures SortedDesc(SortDesc(s))
    decreases |s|
  {
    if s != [] {
      var p := s[..|s| - 1];
      SortDescSorted(p);
      InsertDescSorted(s[|s| - 1], SortDesc(p));
    }
  }

  /** The sort is a permutation. */
  lemma {:induction false} SortDescPerm(s: seq<City>)
    ensures multiset(SortDesc(s)) == multiset(s)
    decreases |s|
  {
    if s != [] {
      var p := s[..|s| - 1];
      var x := s[|s| - 1];
      SortDescPerm(p);
      SortDescSorted(p);
      InsertDescSorted(x, SortDesc(p));
      assert multiset(s) == multiset(p) + multiset{x} by {
        assert s == p + [x];
      }
    }
  }

  /** The sort keeps cities with equal visits in their original order. */
  lemma {:induction false} SortDescTies(s: seq<City>)
    ensures forall v :: WithVisits(SortDesc(s), v) == WithVisits(s, v)
    decreases |s|
  {
    if s != [] {
      var p := s[..|s| - 1];
      var x := s[|s| - 1];
      SortDescTies(p);
      SortDescSorted(p);
      forall v ensures WithVisits(SortDesc(s), v) == WithVisits(s, v) {
        InsertDescTies(x, SortDesc(p), v);
      }
    }
  }

  /** The sort is ordered by visits, is a permutation, and keeps cities
      with equal visits in their original order. */
  lemma SortDescFacts(s: seq<City>)
    ensures SortedDesc(SortDesc(s))
    ensures multiset(SortDesc(s)) == multiset(s)
    ensures forall v :: WithVisits(SortDesc(s), v) == WithVisits(s, v)
  {
    SortDescSorted(s);
    SortDescPerm(s);
    SortDescTies(s);
  }

  /** Dropping the last city drops the last pick of its visit count. */
  lemma WithVisitsDropLast(r: seq<City>, v: int)
    requires r != []
    ensures WithVisits(r[..|r| - 1], v) ==
              if r[|r| - 1].visits == v then WithVisits(r, v)[..|WithVisits(r, v)| - 1] else WithVisits(r, v)
  {
    var w := WithVisits(r[..|r| - 1], v);
    if r[|r| - 1].visits == v {
      assert WithVisits(r, v) == w + [r[|r| - 1]];
      assert (w + [r[|r| - 1]])[..|w|] == w;
    }
  }

  /** No city of a sorted list has fewer visits than its last one. */
  lemma LastIsFewest(t: seq<City>, c: City)
    requires SortedDesc(t) && c in t
    ensures c.visits >= t[|t| - 1].visits
  {
    var k :| 0 <= k < |t| && t[k] == c;
  }

  /** The last city is the last pick of its own visit count. */
  lemma LastPicked(r: seq<City>)
    ensures r != [] ==> WithVisits(r, r[|r| - 1].visits) ==
                          WithVisits(r[..|r| - 1], r[|r| - 1].visits) + [r[|r| - 1]]
  {
  }

  /** Such lists end with the same city. */
  lemma SortedLastSame(r: seq<City>, t: seq<City>)
    requires SortedDesc(r) && SortedDesc(t) && r != [] && t != []
    requires forall v :: WithVisits(r, v) == WithVisits(t, v)
    ensures r[|r| - 1] == t[|t| - 1]
  {
    var x, y := r[|r| - 1], t[|t| - 1];
    LastPicked(r);
    LastPicked(t);
    var wr := WithVisits(r[..|r| - 1], x.visits);
    var wt := WithVisits(t[..|t| - 1], y.visits);
    assert x in WithVisits(t, x.visits) by {
      assert (wr + [x])[|wr|] == x;
    }
    assert y in WithVisits(r, y.visits) by {
      assert (wt + [y])[|wt|] == y;
    }
    WithVisitsIn(t, x.visits);
    WithVisitsIn(r, y.visits);
    LastIsFewest(t, x);
    LastIsFewest(r, y);
    assert x.visits == y.visits;
    assert wr + [x] == wt + [y];
    assert (wr + [x])[|wr|] == x && (wt + [y])[|wt|] == y;
  }

  /** Two lists sorted by visits with the same cities, in the same order,
      at every visit count are equal. */
  lemma {:induction false} SortedTiesUnique(r: seq<City>, t: seq<City>)
    requires SortedDesc(r) && SortedDesc(t)
    requires forall v :: WithVisits(r, v) == WithVisits(t, v)
    ensures r == t
    decreases |r| + |t|
  {
    if r == [] || t == [] {
      LastPicked(r);
      LastPicked(t);
    } else {
      SortedLastSame(r, t);
      var x := r[|r| - 1];
      var r', t' := r[..|r| - 1], t[..|t| - 1];
      forall v ensures WithVisits(r', v) == WithVisits(t', v) {
        WithVisitsDropLast(r, v);
        WithVisitsDropLast(t, v);
      }
      SortedTiesUnique(r', t');
      assert r == r' + [x] && t == t' + [x];
    }
  }

  /** So any stable sort by visits, descending, gives SortDesc. */
  lemma StableSortIsSortDesc(s: seq<City>, r: seq<City>)
    requires SortedDesc(r)
    requires forall v :: WithVisits(r, v) == WithVisits(s, v)
    ensures r == SortDesc(s)
  {
    SortDescFacts(s);
    SortedTiesUnique(r, SortDesc(s));
  }

  /** Moves a[p..i] one place right, over a[i]. */
  method ShiftRight(a: array<City>, p: int, i: int)
    requires 0 <= p <= i < a.Length
    modifies a
    ensures a[..p] == old(a[..p]) && a[p + 1..i + 1] == old(a[p..i]) && a[i + 1..] == old(a[i + 1..])
  {
    var j := i;
    while j > p
      invariant p <= j <= i
      invariant a[..j] == old(a[..j])
      invariant a[j + 1..i + 1] == old(a[j..i])
      invariant a[i + 1..] == old(a[i + 1..])
    {
      a[j] := a[j - 1];
      j := j - 1;
    }
  }

  /** Inserts a[i] into the sorted prefix a[..i]. */
  method InsertAt(a: array<City>, i: int)
    requires 0 <= i < a.Length
    modifies a
    ensures a[..i + 1] == InsertDesc(old(a[i]), old(a[..i]))
    ensures a[i + 1..] == old(a[i + 1..])
  {
    var key := a[i];
    var p := 0;
    while p < i && a[p].visits >= key.visits
      invariant 0 <= p <= i
      invariant forall k :: 0 <= k < p ==> a[k].visits >= key.visits
    {
      p := p + 1;
    }
    ghost var pre := a[..i];
    ShiftRight(a, p, i);
    assert a[..p] == pre[..p] && a[p + 1..i + 1] == pre[p..];
    a[p] := key;
    assert a[..p] == pre[..p] && a[p + 1..i + 1] == pre[p..];
    assert a[..i + 1] == a[..p] + [a[p]] + a[p + 1..i + 1];
    InsertDescAt(key, pre, p);
  }

  /** Sorts the cities in place by visits, most visited first; cities with
      equal visits keep their order. */
  method SortByVisits(a: array<City>)
    modifies a
    ensures a[..] == SortDesc(old(a[..]))
  {
    ghost var orig := a[..];
    for i := 0 to a.Length
      invariant a[..i] == SortDesc(orig[..i])
      invariant a[i..] == orig[i..]
    {
      InsertAt(a, i);
      assert orig[..i + 1][..i] == orig[..i];
    }
    assert orig[..a.Length] == orig;
  }

  // ---------------------------------------------------------------------
  // The cards

  function CardOf(c: City): Card {
    Card(c.name, c.province, c.visits)
  }

  /** Sorts `cityData` in place and lays out one card per city in the
      sorted order. */
  method SortedCards(cityData: array<City>) returns (cards: seq<Card>)
    modifies cityData
    ensures cityData[..] == SortDesc(old(cityData[..]))
    ensures |cards| == cityData.Length && forall i :: 0 <= i < |cards| ==> cards[i] == CardOf(cityData[i])
  {
    SortByVisits(cityData);
    cards := [];
    for i := 0 to cityData.Length
      invariant |cards| == i && forall k :: 0 <= k < i ==> cards[k] == CardOf(cityData[k])
    {
      cards := cards + [CardOf(cityData[i])];
    }
  }

  /** The cards run from the most visited city down, one per city, and the
      cities with equal visits keep their order in `cityData`. */
  lemma CardsOrdered(cities: seq<City>, cards: seq<Card>)
    requires |cards| == |SortDesc(cities)|
    requires forall i :: 0 <= i < |cards| ==> cards[i] == CardOf(SortDesc(cities)[i])
    ensures forall i, j :: 0 <= i < j < |cards| ==> cards[i].visits >= cards[j].visits
    ensures |cards| == |cities| && multiset(SortDesc(cities)) == multiset(cities)
    ensures forall v :: WithVisits(SortDesc(cities), v) == WithVisits(cities, v)
  {
    SortDescFacts(cities);
    assert |multiset(SortDesc(cities))| == |multiset(cities)|;
  }

  // ---------------------------------------------------------------------
  // The zoom handler

  /** The cap on a marker's radius after zooming. */
  const MaxZoomRadius: real := 20.0

  /** `l.options.visits || 1`: a count of 0 counts as one visit. */
  function VisitsOrOne(v: int): int {
    if v == 0 then 1 else v
  }

  /** The radius a marker with v recorded visits gets at a zoom scale. */
  function ZoomRadius(v: int, scale: real): (r: real)
    ensures r <= MaxZoomRadius && r <= (6.0 + (VisitsOrOne(v) as real) * 2.5) * scale
    ensures r == MaxZoomRadius || r == (6.0 + (VisitsOrOne(v) as real) * 2.5) * scale
  {
    Min(MaxZoomRadius, (6.0 + (VisitsOrOne(v) as real) * 2.5) * scale)
  }

  /** Zero visits zoom like one visit. */
  lemma ZoomZeroIsOne(scale: real)
    ensures ZoomRadius(0, scale) == ZoomRadius(1, scale) == Min(MaxZoomRadius, 8.5 * scale)
  {
  }

  /** Zooming in never shrinks a marker with a positive count. */
  lemma ZoomMonotone(v: int, s: real, t: real)
    requires v > 0 && s <= t
    ensures ZoomRadius(v, s) <= ZoomRadius(v, t)
  {
    var b := 6.0 + (v as real) * 2.5;
    assert VisitsOrOne(v) == v && b > 0.0;
    assert b * t - b * s == b * (t - s);
    assert b * (t - s) >= 0.0;
  }

  /** At the base zoom level the radius is the undamped style radius, so it
      exceeds the style's own cap of 18 from five visits on. */
  lemma ZoomAtBase(v: int)
    requires v > 0
    ensures ZoomRadius(v, 1.0) == Min(MaxZoomRadius, 6.0 + 2.5 * (v as real))
    ensures v <= 4 ==> ZoomRadius(v, 1.0) == GetDotStyle(v).radius
    ensures v >= 5 ==> ZoomRadius(v, 1.0) > GetDotStyle(v).radius
  {
    DotStyleSaturates(v);
    if v <= 4 {
      assert (v as real) * 2.5 <= 10.0;
    }
  }

  /** `l.setRadius(r)`: the marker's radius option becomes r. */
  function WithRadius(m: Marker, r: real): Marker {
    m.(options := m.options.(radius := r))
  }

  /** `zoomend`: every marker's radius follows its visits and the zoom. */
  method Zoom(markers: array<Marker>, scale: real)
    modifies markers
    ensures forall i :: 0 <= i < markers.Length ==>
      markers[i] == WithRadius(old(markers[i]), ZoomRadius(old(markers[i]).options.visits, scale))
    ensures forall i :: 0 <= i < markers.Length ==> markers[i].options.radius <= MaxZoomRadius
  {
    for i := 0 to markers.Length
      invariant forall k :: 0 <= k < i ==>
        markers[k] == WithRadius(old(markers[k]), ZoomRadius(old(markers[k]).options.visits, scale))
      invariant forall k :: i <= k < markers.Length ==> markers[k] == old(markers[k])
    {
      markers[i] := WithRadius(markers[i], ZoomRadius(markers[i].options.visits, scale));
    }
  }

  // ---------------------------------------------------------------------
  // The visits back-fill

  /** Same coordinates. */
  predicate At(c: City, lat: real, lng: real) {
    c.lat == lat && c.lng == lng
  }

  /** `cityData.find(c => c.lat === lat && c.lng === lng)`. */
  function FindByCoords(cities: seq<City>, lat: real, lng: real): (r: Option<City>)
    ensures r.None? <==> forall i :: 0 <= i < |cities| ==> !At(cities[i], lat, lng)
    ensures r.Some? ==> exists i :: 0 <= i < |cities| && cities[i] == r.value && At(r.value, lat, lng) &&
                                    forall k :: 0 <= k < i ==> !At(cities[k], lat, lng)
    decreases |cities|
  {
    if cities == [] then None
    else if At(cities[0], lat, lng) then Some(cities[0])
    else
      var r := FindByCoords(cities[1..], lat, lng);
      assert forall i :: 1 <= i < |cities| ==> cities[i] == cities[1..][i - 1];
      assert r.Some? ==> exists i :: 0 <= i < |cities[1..]| && cities[1..][i] == r.value && At(r.value, lat, lng) &&
                                    forall k :: 0 <= k < i ==> !At(cities[1..][k], lat, lng);
      r
  }

  /** One marker after the back-fill. */
  function Refill(m: Marker, cities: seq<City>): Marker {
    match FindByCoords(cities, m.lat, m.lng)
    case None => m
    case Some(c) => m.(options := m.options.(visits := c.visits))
  }

  /** `dotGroup.eachLayer(...)`: each marker takes the visits of the first
      city at its coordinates, if any. */
  method BackFill(markers: array<Marker>, cities: seq<City>)
    modifies markers
    ensures forall i :: 0 <= i < markers.Length ==> markers[i] == Refill(old(markers[i]), cities)
  {
    for i := 0 to markers.Length
      invariant forall k :: 0 <= k < i ==> markers[k] == Refill(old(markers[k]), cities)
      invariant forall k :: i <= k < markers.Length ==> markers[k] == old(markers[k])
    {
      var found := FindByCoords(cities, markers[i].lat, markers[i].lng);
      if found.Some? {
        markers[i] := markers[i].(options := markers[i].options.(visits := found.value.visits));
      }
    }
  }

  /** Cities at the same coordinates have the same visits (in particular
      when no two cities share coordinates). */
  predicate CoordsFixVisits(cities: seq<City>) {
    forall c, d :: c in cities && d in cities && At(d, c.lat, c.lng) ==> c.visits == d.visits
  }

  /** Then the back-fill changes nothing on the marker of any of the
      cities: getDotStyle already recorded its visits. */
  lemma RefillNoOp(cities: seq<City>, c: City)
    requires CoordsFixVisits(cities) && c in cities
    ensures Refill(MarkerFor(c), cities) == MarkerFor(c)
  {
    var r := FindByCoords(cities, c.lat, c.lng);
    var k :| 0 <= k < |cities| && cities[k] == c;
    assert At(cities[k], c.lat, c.lng);
    var i :| 0 <= i < |cities| && cities[i] == r.value && At(r.value, c.lat, c.lng);
  }

  /** Two cities at one spot: both markers end up with the visits of the
      more visited one, because the search runs over the sorted cities. */
  lemma RefillShared()
    ensures var a := City("A", "P", 0.0, 0.0, 1);
            var b := City("B", "P", 0.0, 0.0, 3);
            var sorted := SortDesc([a, b]);
            sorted == [b, a] &&
            Refill(MarkerFor(a), sorted).options.visits == 3 &&
            Refill(MarkerFor(b), sorted).options.visits == 3
  {
    var a := City("A", "P", 0.0, 0.0, 1);
    var b := City("B", "P", 0.0, 0.0, 3);
    assert [a, b][..1] == [a];
    assert [a][..0] == [];
    assert SortDesc([a]) == [a];
    assert SortDesc([a, b]) == InsertDesc(b, [a]) == [b, a];
    assert FindByCoords([b, a], 0.0, 0.0) == Some(b);
  }

  // ---------------------------------------------------------------------
  // The page as a whole

  /** The page's start-up: one pass placing the markers and adding up the
      statistics, the in-place sort and its cards, then the back-fill
      against the now sorted `cityData`. */
  method ShowTravels(cityData: array<City>) returns (stats: Stats, cards: seq<Card>, markers: array<Marker>)
    modifies cityData
    ensures fresh(markers)
    ensures stats.cities == cityData.Length
    ensures stats.provinces == |Distinct(ProvincesOf(old(cityData[..])))|
    ensures stats.visits == SumVisits(old(cityData[..]))
    ensures cityData[..] == SortDesc(old(cityData[..]))
    ensures |cards| == cityData.Length && forall i :: 0 <= i < |cards| ==> cards[i] == CardOf(cityData[i])
    ensures markers.Length == cityData.Length
    ensures forall i :: 0 <= i < markers.Length ==> markers[i] == Refill(MarkerFor(old(cityData[i])), cityData[..])
  {
    var placed;
    stats, placed := Totals(cityData[..]);
    markers := new Marker[|placed|](i requires 0 <= i < |placed| => placed[i]);
    cards := SortedCards(cityData);
    BackFill(markers, cityData[..]);
  }

  /** When cities at one spot agree on their visits, the markers keep the
      visits getDotStyle gave them, although the back-fill searches the
      sorted cities. */
  lemma ShowTravelsMarkers(orig: seq<City>, i: int)
    requires CoordsFixVisits(orig) && 0 <= i < |orig|
    ensures Refill(MarkerFor(orig[i]), SortDesc(orig)) == MarkerFor(orig[i])
  {
    var sorted := SortDesc(orig);
    SortDescFacts(orig);
    assert forall c :: c in sorted <==> c in orig by {
      forall c ensures c in sorted <==> c in orig {
        assert c in sorted <==> c in multiset(sorted);
        assert c in orig <==> c in multiset(orig);
      }
    }
    RefillNoOp(sorted, orig[i]);
  }
}

