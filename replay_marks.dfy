/** The reconciliation that update(year) performs on the circles of the
    year-replay view (scatterplot22.js): a data join keyed by type, where
    existing circles are restyled, missing ones are entered, and every
    circle's radius and opacity depend on whether its type has a count in
    the year's table. */
module ReplayMarks {
  import opened Seqs
  import opened ReplayAggregate

  /** The radius a circle transitions to: 0, or the square-root scale
      applied to a count (the scale itself is a library call). */
  datatype Radius = Zero | Scaled(count: int)

  /** One circle. `at` is the year whose x position it moves to; `tipYear`
      and `tipCounts` are the year and year table captured by its mouseover
      handler when it was entered. */
  datatype Mark = Mark(kind: string, at: int, radius: Radius, opacity: real,
                       fill: string, tipYear: int, tipCounts: map<string, int>)

  /** `nested.get(year) ?? new Map()`. */
  function YearTable(nested: Nested, year: int): (m: map<string, int>)
    ensures year !in nested ==> m == map[]
    ensures year in nested ==> m == nested[year]
  {
    if year in nested then nested[year] else map[]
  }

  /** `colorMap[d] || "#ccc"`. */
  function ColorOf(kind: string): (c: string)
    ensures kind !in {"Painting", "Sculpture", "Digital Art", "Photography"} ==> c == "#ccc"
  {
    if kind == "Painting" then "#FF6B6B"
    else if kind == "Sculpture" then "#4ECDC4"
    else if kind == "Digital Art" then "#FFD93D"
    else if kind == "Photography" then "#95E1D3"
    else "#ccc"
  }

  /** `yearMap.has(d) ? r(yearMap.get(d)) : 0`. */
  function RadiusFor(kind: string, yearMap: map<string, int>): (r: Radius)
    ensures r == Zero <==> kind !in yearMap
    ensures kind in yearMap ==> r.count == yearMap[kind]
  {
    if kind in yearMap then Scaled(yearMap[kind]) else Zero
  }

  /** `yearMap.has(d) ? 0.9 : 0`. */
  function OpacityFor(kind: string, yearMap: map<string, int>): (o: real)
    ensures o == 0.0 <==> kind !in yearMap
    ensures kind in yearMap ==> o == 0.9
  {
    if kind in yearMap then 0.9 else 0.0
  }

  /** The keys of a list of circles. */
  function Keys(marks: seq<Mark>): (ks: seq<string>)
    ensures |ks| == |marks|
    ensures forall i :: 0 <= i < |marks| ==> ks[i] == marks[i].kind
  {
    seq(|marks|, i requires 0 <= i < |marks| => marks[i].kind)
  }

  /** The circles show `year`: one per type, in the order of `types`, each
      at the year's position with its radius and opacity chosen by presence
      in the year's table. */
  predicate Shows(marks: seq<Mark>, types: seq<string>, year: int, yearMap: map<string, int>) {
    Keys(marks) == types &&
    forall i :: 0 <= i < |marks| ==>
      marks[i].at == year &&
      marks[i].radius == RadiusFor(types[i], yearMap) && marks[i].opacity == OpacityFor(types[i], yearMap)
  }

  /** The first existing circle bound to key t, as the keyed join finds it. */
  function Find(marks: seq<Mark>, t: string): (r: Option<Mark>)
    ensures r.None? <==> t !in Keys(marks)
    ensures r.Some? ==> r.value in marks && r.value.kind == t
  {
    if marks == [] then None
    else if marks[0].kind == t then Some(marks[0])
    else
      var r := Find(marks[1..], t);
      assert Keys(marks[1..]) == Keys(marks)[1..];
      r
  }

  /** A freshly entered circle: at the year's position, radius 0, opacity
      0, its type's colour, and a mouseover handler over this call's year
      and table. */
  function Enter(t: string, year: int, yearMap: map<string, int>): Mark {
    Mark(t, year, Zero, 0.0, ColorOf(t), year, yearMap)
  }

  /** The merged update transition applied to a circle. */
  function Restyle(m: Mark, year: int, yearMap: map<string, int>): Mark {
    m.(at := year, radius := RadiusFor(m.kind, yearMap), opacity := OpacityFor(m.kind, yearMap))
  }

  /** The circle for type t after the join: the existing one if there is
      one, else a new one, then restyled. */
  function Reconcile(marks: seq<Mark>, t: string, year: int, yearMap: map<string, int>): Mark {
    match Find(marks, t)
    case Some(m) => Restyle(m, year, yearMap)
    case None => Restyle(Enter(t, year, yearMap), year, yearMap)
  }

  /** `svg.selectAll("circle").data(types, d => d)` with its exit, enter and
      merged update: one circle per type, in the order of `types`; circles
      whose key is not a type exit. */
  function Join(marks: seq<Mark>, types: seq<string>, year: int, yearMap: map<string, int>): (r: seq<Mark>)
    ensures Shows(r, types, year, yearMap)
  {
    seq(|types|, i requires 0 <= i < |types| => Reconcile(marks, types[i], year, yearMap))
  }

  /** The mouseover text's year and count: `yearMap.get(d) || 0`. */
  datatype Tip = Tip(kind: string, year: int, count: int)

  function Hover(m: Mark): (tip: Tip)
    ensures tip.kind == m.kind && tip.year == m.tipYear
    ensures m.kind !in m.tipCounts ==> tip.count == 0
    ensures m.kind in m.tipCounts ==> tip.count == m.tipCounts[m.kind]
  {
    Tip(m.kind, m.tipYear, if m.kind in m.tipCounts then m.tipCounts[m.kind] else 0)
  }

  // ---------------------------------------------------------------------
  // Properties of the join

  /** A type without a count that year keeps its circle, shrunk to radius 0
      and opacity 0; a type with a count gets a positive scaled radius and
      opacity 0.9. */
  lemma JoinPresence(marks: seq<Mark>, types: seq<string>, year: int, yearMap: map<string, int>, i: int)
    requires 0 <= i < |types|
    ensures var r := Join(marks, types, year, yearMap);
      r[i].kind == types[i] &&
      (types[i] !in yearMap ==> r[i].radius == Zero && r[i].opacity == 0.0) &&
      (types[i] in yearMap ==> r[i].radius == Scaled(yearMap[types[i]]) && r[i].opacity == 0.9)
  {
    var r := Join(marks, types, year, yearMap);
    assert Keys(r)[i] == r[i].kind;
  }

  /** An existing circle keeps its colour and its mouseover handler; a new
      one captures this call's year and table. */
  lemma JoinTips(marks: seq<Mark>, types: seq<string>, year: int, yearMap: map<string, int>, i: int)
    requires 0 <= i < |types|
    ensures var r := Join(marks, types, year, yearMap);
      (types[i] in Keys(marks) ==>
         exists j :: 0 <= j < |marks| && marks[j].kind == types[i] && r[i].fill == marks[j].fill &&
                     r[i].tipYear == marks[j].tipYear && r[i].tipCounts == marks[j].tipCounts) &&
      (types[i] !in Keys(marks) ==> r[i].fill == ColorOf(types[i]) && r[i].tipYear == year && r[i].tipCounts == yearMap)
  {
    var m := Find(marks, types[i]);
    if m.Some? {
      var j :| 0 <= j < |marks| && marks[j] == m.value;
    }
  }

  /** The first join enters every circle, each capturing that call's year
      and table. */
  lemma JoinEnters(types: seq<string>, year: int, yearMap: map<string, int>)
    ensures var r := Join([], types, year, yearMap);
      forall i :: 0 <= i < |r| ==> r[i].fill == ColorOf(types[i]) && r[i].tipYear == year && r[i].tipCounts == yearMap
  {
    var r := Join([], types, year, yearMap);
    forall i | 0 <= i < |r| ensures r[i].fill == ColorOf(types[i]) && r[i].tipYear == year && r[i].tipCounts == yearMap {
      JoinTips([], types, year, yearMap, i);
    }
  }

  /** When every circle is already bound to the types that are joined,
      circles are only restyled: fill and mouseover handler are unchanged. */
  lemma JoinRestyles(marks: seq<Mark>, types: seq<string>, year: int, yearMap: map<string, int>)
    requires NoDup(types) && Keys(marks) == types
    ensures var r := Join(marks, types, year, yearMap);
      forall i :: 0 <= i < |r| ==> r[i] == Restyle(marks[i], year, yearMap)
  {
    var r := Join(marks, types, year, yearMap);
    forall i | 0 <= i < |r| ensures r[i] == Restyle(marks[i], year, yearMap) {
      FindNoDup(marks, i);
    }
  }

  lemma {:induction false} FindNoDup(marks: seq<Mark>, i: int)
    requires NoDup(Keys(marks)) && 0 <= i < |marks|
    ensures Find(marks, marks[i].kind) == Some(marks[i])
  {
    if i > 0 {
      assert Keys(marks[1..]) == Keys(marks)[1..];
      assert Keys(marks)[0] != Keys(marks)[i];
      FindNoDup(marks[1..], i - 1);
    }
  }

  /** The join for the same year and types is idempotent. */
  lemma JoinIdempotent(marks: seq<Mark>, types: seq<string>, year: int, yearMap: map<string, int>)
    requires NoDup(types)
    ensures Join(Join(marks, types, year, yearMap), types, year, yearMap) == Join(marks, types, year, yearMap)
  {
    var r := Join(marks, types, year, yearMap);
    JoinRestyles(r, types, year, yearMap);
  }

  /** Mouseover shows the count of the year the circle was entered in, 0
      when that year had no count for its type, whatever year is current. */
  lemma HoverStale(marks: seq<Mark>, types: seq<string>, year: int, yearMap: map<string, int>, i: int)
    requires NoDup(types) && Keys(marks) == types && 0 <= i < |types|
    ensures var tip := Hover(Join(marks, types, year, yearMap)[i]);
      tip.year == marks[i].tipYear &&
      tip.count == (if types[i] in marks[i].tipCounts then marks[i].tipCounts[types[i]] else 0)
  {
    JoinRestyles(marks, types, year, yearMap);
  }
}
