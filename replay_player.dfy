/** The playback controls of the year-replay view (scatterplot22.js): the
    module variables `currentYear` and `timer`, `update`, the Play button's
    interval tick, the Pause button and the year slider. */
module ReplayPlayer {
  import opened Seqs
  import opened ReplayAggregate
  import opened ReplayMarks

  /** The transition duration; the interval fires every duration + 300 ms. */
  const Duration: int := 1400
  const TickDelay: int := Duration + 300

  /** The year after `current`:
      `years[(years.indexOf(currentYear) + 1) % years.length]`. A year that
      is not in `years` has index -1 and is followed by the first year. */
  function NextYear(years: seq<int>, current: int): (next: int)
    requires years != []
    ensures next in years
    ensures current !in years ==> next == years[0]
  {
    years[Succ(IndexOf(years, current), |years|)]
  }

  /** `(i + 1) % n` for an index i of a list of length n, or -1: the next
      index, wrapping from the last to the first. */
  function Succ(i: int, n: int): (j: int)
    requires -1 <= i < n && n > 0
    ensures j == if i + 1 < n then i + 1 else 0
  {
    if i + 1 < n then ModUnique(i + 1, n, 0, i + 1); (i + 1) % n
    else assert i + 1 == 1 * n + 0; ModUnique(i + 1, n, 1, 0); (i + 1) % n
  }

  /** In a list of distinct years, the year after the k-th is the
      (k+1)-th, wrapping from the last to the first. */
  lemma NextYearAt(years: seq<int>, k: int)
    requires NoDup(years) && 0 <= k < |years|
    ensures NextYear(years, years[k]) == years[Succ(k, |years|)]
    ensures NextYear(years, years[k]) == years[0] <==> k == |years| - 1
  {
    IndexOfNoDup(years, k);
    if k + 1 < |years| {
      assert years[k + 1] != years[0];
    }
  }

  // ---------------------------------------------------------------------
  // Remainders

  lemma MulBounds(d: int, n: int)
    requires n > 0
    ensures d >= 1 ==> d * n >= n
    ensures d <= -1 ==> d * n <= -n
  {
  }

  /** The remainder is determined by any quotient-remainder decomposition. */
  lemma ModUnique(a: int, n: int, q: int, r: int)
    requires n > 0 && 0 <= r < n && a == q * n + r
    ensures a % n == r
  {
    var q2 := a / n;
    var r2 := a % n;
    assert a == q2 * n + r2;
    MulBounds(q2 - q, n);
    assert (q2 - q) * n == r - r2;
  }

  lemma ModMinus(k: int, n: int)
    requires 0 < n <= k
    ensures (k - n) % n == k % n
  {
    var q := k / n;
    var r := k % n;
    assert k - n == (q - 1) * n + r;
    ModUnique(k - n, n, q - 1, r);
  }

  lemma ModNext(x: int, n: int)
    requires 0 <= x && 0 < n
    ensures (x % n + 1) % n == (x + 1) % n
  {
    var q := x / n;
    var r := x % n;
    assert x == q * n + r;
    if r + 1 < n {
      ModUnique(r + 1, n, 0, r + 1);
      assert x + 1 == q * n + (r + 1);
      ModUnique(x + 1, n, q, r + 1);
    } else {
      ModUnique(r + 1, n, 1, 0);
      assert x + 1 == (q + 1) * n + 0;
      ModUnique(x + 1, n, q + 1, 0);
    }
  }

  // ---------------------------------------------------------------------
  // Playback as a sequence of ticks

  /** The year shown and whether the interval is still running. */
  datatype Playback = Playback(year: int, running: bool)

  /** One firing of the interval as the handler means it: advance, and stop
      the interval when the year has wrapped to the first. */
  function Step(years: seq<int>, s: Playback): Playback
    requires years != []
  {
    var next := NextYear(years, s.year);
    Playback(next, next != years[0])
  }

  /** One firing as written: the script defines no `pause` function, and
      the name resolves to the `#pause` button element, so the stop branch
      throws a TypeError after `update(next)` and the interval, already
      rescheduled by d3.interval, keeps running. */
  function StepAsWritten(years: seq<int>, s: Playback): Playback
    requires years != []
  {
    Playback(NextYear(years, s.year), s.running)
  }

  /** Up to k firings; an interval that has stopped does not fire. */
  function Run(years: seq<int>, s: Playback, k: nat): Playback
    requires years != []
    decreases k
  {
    if k == 0 || !s.running then s else Run(years, Step(years, s), k - 1)
  }

  function RunAsWritten(years: seq<int>, s: Playback, k: nat): Playback
    requires years != []
    decreases k
  {
    if k == 0 || !s.running then s else RunAsWritten(years, StepAsWritten(years, s), k - 1)
  }

  lemma {:induction false} RunFrom(years: seq<int>, j: nat, k: nat)
    requires NoDup(years) && j < |years|
    decreases k
    ensures Run(years, Playback(years[j], true), k) ==
            if j + k < |years| then Playback(years[j + k], true) else Playback(years[0], false)
  {
    if k > 0 {
      NextYearAt(years, j);
      if j + 1 < |years| {
        RunFrom(years, j + 1, k - 1);
      }
    }
  }

  /** Played from the first year, the interval shows the years in order and
      stops exactly at the n-th tick, back on the first year. */
  lemma RunFromFirst(years: seq<int>, k: nat)
    requires NoDup(years) && years != []
    ensures Run(years, Playback(years[0], true), k) ==
            if k < |years| then Playback(years[k], true) else Playback(years[0], false)
  {
    RunFrom(years, 0, k);
  }

  /** The position reached from j after k wrapping steps. */
  function Pos(j: int, k: nat, n: int): (p: int)
    requires 0 <= j < n
    ensures 0 <= p < n
    decreases k
  {
    if k == 0 then j else Pos(Succ(j, n), k - 1, n)
  }

  lemma {:induction false} PosMod(j: int, k: nat, n: int)
    requires 0 <= j < n
    ensures Pos(j, k, n) == (j + k) % n
    decreases k
  {
    if k == 0 {
      ModUnique(j, n, 0, j);
    } else {
      PosMod(Succ(j, n), k - 1, n);
      if j + 1 == n {
        ModMinus(j + k, n);
      }
    }
  }

  lemma {:induction false} RunAsWrittenPos(years: seq<int>, j: nat, k: nat)
    requires NoDup(years) && j < |years|
    ensures RunAsWritten(years, Playback(years[j], true), k) == Playback(years[Pos(j, k, |years|)], true)
    decreases k
  {
    if k > 0 {
      NextYearAt(years, j);
      RunAsWrittenPos(years, Succ(j, |years|), k - 1);
    }
  }

  /** As written, the interval never stops: after k ticks from the first
      year it shows years[k mod n] and is still running. */
  lemma RunAsWrittenNeverStops(years: seq<int>, k: nat)
    requires NoDup(years) && years != []
    ensures RunAsWritten(years, Playback(years[0], true), k) == Playback(years[k % |years|], true)
  {
    RunAsWrittenPos(years, 0, k);
    PosMod(0, k, |years|);
  }

  /** One more firing as written, from a running state. */
  lemma {:induction false} RunAsWrittenSnoc(years: seq<int>, s: Playback, k: nat)
    requires years != [] && s.running
    ensures RunAsWritten(years, s, k).running
    ensures RunAsWritten(years, s, k + 1) == StepAsWritten(years, RunAsWritten(years, s, k))
    decreases k
  {
    if k > 0 {
      RunAsWrittenSnoc(years, StepAsWritten(years, s), k - 1);
    }
  }

  // ---------------------------------------------------------------------
  // The page state

  /** What the playback relies on about the derived lists. */
  lemma RollupFacts(data: seq<Record>)
    requires data != []
    ensures Years(data) != [] && StrictlyIncreasing(Years(data)) && NoDup(Years(data))
    ensures NoDup(Types(data))
  {
    YearsCorrect(data);
    TypesCorrect(data);
  }

  /** A d3.interval: a handle and its period. */
  datatype Interval = Interval(handle: nat, delay: int)

  class Player {
    const data: seq<Record>
    const nested: Nested
    const years: seq<int>
    const types: seq<string>
    /** `currentYear`. */
    var currentYear: int
    /** `timer`: null, or the interval started by Play. */
    var timer: Option<Interval>
    /** The handles of the intervals the scheduler will still fire. */
    var live: set<nat>
    var nextHandle: nat
    /** The circles in the svg. */
    var marks: seq<Mark>
    /** The `disabled` attribute of the Play button. */
    var playDisabled: bool
    /** The `disabled` attribute of the `#pause` button. */
    var pauseDisabled: bool

    /** The derived data is the rollup of `data`. */
    ghost predicate Derived() {
      nested == Nest(data) && years == Years(data) && types == Types(data) &&
      years != [] && StrictlyIncreasing(years) && NoDup(years) && NoDup(types)
    }

    /** At most the interval held in `timer` is running. */
    ghost predicate TimerHeld()
      reads this`timer, this`live, this`nextHandle
    {
      live == (if timer.Some? then {timer.value.handle} else {}) &&
      (forall h :: h in live ==> h < nextHandle) &&
      (timer.Some? ==> timer.value.delay == TickDelay)
    }

    /** The circles show `currentYear`, and every circle's mouseover handler
        is the one of the initial render. */
    ghost predicate Displayed()
      reads this`marks, this`currentYear
    {
      years != [] &&
      Shows(marks, types, currentYear, YearTable(nested, currentYear)) &&
      forall i :: 0 <= i < |marks| ==>
        marks[i].tipYear == years[0] && marks[i].tipCounts == YearTable(nested, years[0])
    }

    ghost predicate Valid()
      reads this
    {
      Derived() && TimerHeld() && Displayed()
    }

    /** A running timer can be stopped with the Pause button: the button is
        enabled whenever a timer is set. */
    predicate Pausable()
      reads this`timer, this`pauseDisabled
    {
      timer.Some? ==> !pauseDisabled
    }

    /** The script's set-up and its initial `update(years[0])`: Play is
        created enabled and Pause disabled. */
    constructor (data: seq<Record>)
      requires data != []
      ensures Valid() && Pausable()
      ensures this.data == data && nested == Nest(data) && years == Years(data) && types == Types(data)
      ensures currentYear == years[0] && timer.None?
      ensures !playDisabled && pauseDisabled
    {
      this.data := data;
      nested := Nest(data);
      years := Years(data);
      types := Types(data);
      RollupFacts(data);
      currentYear := Years(data)[0];
      timer := None;
      live := {};
      nextHandle := 0;
      marks := [];
      playDisabled := false;
      pauseDisabled := true;
      new;
      assert TimerHeld();
      JoinEnters(types, years[0], YearTable(nested, years[0]));
      Update(years[0]);
    }

    /** `update(year)`: records the year and joins the circles to the
        types with that year's table, an empty one when the year has no
        records. */
    method Update(year: int)
      modifies this
      ensures currentYear == year
      ensures marks == Join(old(marks), types, year, YearTable(nested, year))
      ensures timer == old(timer) && live == old(live) && nextHandle == old(nextHandle)
      ensures playDisabled == old(playDisabled) && pauseDisabled == old(pauseDisabled)
    {
      currentYear := year;
      var yearMap := YearTable(nested, year);
      marks := Join(marks, types, year, yearMap);
    }

    /** `timer.stop(); timer = null`. */
    method StopTimer()
      requires timer.Some? ==> live == {timer.value.handle}
      requires timer.None? ==> live == {}
      modifies this
      ensures timer.None? && live == {}
      ensures currentYear == old(currentYear) && marks == old(marks) && nextHandle == old(nextHandle)
      ensures playDisabled == old(playDisabled) && pauseDisabled == old(pauseDisabled)
    {
      if timer.Some? {
        live := live - {timer.value.handle};
      }
      timer := None;
    }

    /** Starts an interval firing every 1700 ms, unless a timer is set. */
    method StartTimer()
      requires TimerHeld()
      modifies this
      ensures TimerHeld()
      ensures old(timer).Some? ==> timer == old(timer) && live == old(live) && nextHandle == old(nextHandle)
      ensures old(timer).None? ==>
        timer == Some(Interval(old(nextHandle), TickDelay)) && live == {old(nextHandle)} &&
        nextHandle == old(nextHandle) + 1
      ensures currentYear == old(currentYear) && marks == old(marks)
      ensures playDisabled == old(playDisabled) && pauseDisabled == old(pauseDisabled)
    {
      if timer.Some? {
        return;
      }
      timer, live, nextHandle := Some(Interval(nextHandle, TickDelay)), {nextHandle}, nextHandle + 1;
    }

    /** The Play button's handler as it is meant: nothing when a timer is
        set; otherwise start an interval firing every 1700 ms, disable Play
        and enable Pause. */
    method Play()
      requires Valid()
      modifies this
      ensures Valid() && (old(Pausable()) ==> Pausable())
      ensures old(timer).Some? ==>
        timer == old(timer) && live == old(live) && nextHandle == old(nextHandle) &&
        playDisabled == old(playDisabled) && pauseDisabled == old(pauseDisabled)
      ensures old(timer).None? ==>
        timer == Some(Interval(old(nextHandle), TickDelay)) && live == {old(nextHandle)} &&
        nextHandle == old(nextHandle) + 1 && playDisabled && !pauseDisabled
      ensures currentYear == old(currentYear) && marks == old(marks)
    {
      if timer.Some? {
        return;
      }
      StartTimer();
      playDisabled := true;
      pauseDisabled := false;
    }

    /** The Play button's handler as written. It is an arrow function in a
        non-strict script, so its `this` is `window`; `d3.select(this)`
        selects the window, which has no `setAttribute`, and the `attr`
        call throws once the interval is started. Neither button changes,
        so Pause stays disabled. */
    method PlayAsWritten()
      requires Valid()
      modifies this
      ensures Valid()
      ensures old(timer).Some? ==> timer == old(timer) && live == old(live) && nextHandle == old(nextHandle)
      ensures old(timer).None? ==>
        timer == Some(Interval(old(nextHandle), TickDelay)) && live == {old(nextHandle)} &&
        nextHandle == old(nextHandle) + 1
      ensures currentYear == old(currentYear) && marks == old(marks)
      ensures playDisabled == old(playDisabled) && pauseDisabled == old(pauseDisabled)
    {
      StartTimer();
    }

    /** The Pause button's handler as it is meant: stops and clears the
        timer, enables the first button (Play) and disables Pause; a second
        run finds nothing to stop. */
    method Pause()
      requires Valid()
      modifies this
      ensures Valid() && Pausable()
      ensures timer.None? && live == {} && !playDisabled && pauseDisabled
      ensures currentYear == old(currentYear) && marks == old(marks) && nextHandle == old(nextHandle)
    {
      StopTimer();
      playDisabled := false;
      pauseDisabled := true;
    }

    /** The Pause button's handler as written: the timer is stopped and
        cleared and Play enabled, then `d3.select(this)` throws as in Play,
        so Pause is not disabled. */
    method PauseAsWritten()
      requires Valid()
      modifies this
      ensures Valid()
      ensures timer.None? && live == {} && !playDisabled && pauseDisabled == old(pauseDisabled)
      ensures currentYear == old(currentYear) && marks == old(marks) && nextHandle == old(nextHandle)
    {
      StopTimer();
      playDisabled := false;
    }

    /** A click on the Pause button, meant: a disabled button ignores it. */
    method ClickPause()
      requires Valid()
      modifies this
      ensures Valid() && (old(Pausable()) ==> timer.None?)
      ensures old(pauseDisabled) ==>
        timer == old(timer) && live == old(live) && playDisabled == old(playDisabled) && pauseDisabled
      ensures currentYear == old(currentYear) && marks == old(marks) && nextHandle == old(nextHandle)
      ensures !old(pauseDisabled) ==> timer.None? && live == {} && !playDisabled && pauseDisabled
    {
      if !pauseDisabled {
        Pause();
      }
    }

    /** A click on the Pause button, as written. */
    method ClickPauseAsWritten()
      requires Valid()
      modifies this
      ensures Valid()
      ensures old(pauseDisabled) ==>
        timer == old(timer) && live == old(live) && playDisabled == old(playDisabled) && pauseDisabled
      ensures currentYear == old(currentYear) && marks == old(marks) && nextHandle == old(nextHandle)
      ensures !old(pauseDisabled) ==> timer.None? && live == {} && !playDisabled && !pauseDisabled
    {
      if !pauseDisabled {
        PauseAsWritten();
      }
    }

    /** The slider's input handler with the value v, which the range input
        keeps between the first and the last year: stops and clears the
        timer, then updates to v, a year that may have no records. The
        buttons are left as they are. */
    method Slide(v: int)
      requires Valid() && years[0] <= v <= years[|years| - 1]
      modifies this
      ensures Valid() && Pausable()
      ensures timer.None? && live == {} && currentYear == v
      ensures marks == Join(old(marks), types, v, YearTable(nested, v))
      ensures playDisabled == old(playDisabled) && pauseDisabled == old(pauseDisabled)
    {
      JoinRestyles(marks, types, v, YearTable(nested, v));
      StopTimer();
      Update(v);
    }

    /** A firing of the Play interval, with the stop on wrap the handler
        means: advance to the next year and, when that is the first year,
        do what the Pause button does. */
    method Tick()
      requires Valid() && timer.Some?
      modifies this
      ensures Valid() && (old(Pausable()) ==> Pausable())
      ensures Playback(currentYear, timer.Some?) == Step(years, Playback(old(currentYear), true))
      ensures timer.Some? ==>
        timer == old(timer) && live == old(live) &&
        playDisabled == old(playDisabled) && pauseDisabled == old(pauseDisabled)
      ensures timer.None? ==> !playDisabled && pauseDisabled
      ensures marks == Join(old(marks), types, currentYear, YearTable(nested, currentYear))
    {
      var i := IndexOf(years, currentYear);
      var next := years[Succ(i, |years|)];
      JoinRestyles(marks, types, next, YearTable(nested, next));
      Update(next);
      if next == years[0] {
        Pause();
      }
    }

    /** A firing of the Play interval as written: `pause` names the
        `#pause` button, not a function, so calling it throws after the
        update and the timer is never cleared. */
    method TickAsWritten()
      requires Valid() && timer.Some?
      modifies this
      ensures Valid()
      ensures Playback(currentYear, timer.Some?) == StepAsWritten(years, Playback(old(currentYear), true))
      ensures timer == old(timer) && live == old(live)
      ensures playDisabled == old(playDisabled) && pauseDisabled == old(pauseDisabled)
      ensures marks == Join(old(marks), types, currentYear, YearTable(nested, currentYear))
    {
      var i := IndexOf(years, currentYear);
      var next := years[Succ(i, |years|)];
      JoinRestyles(marks, types, next, YearTable(nested, next));
      Update(next);
    }

    /** The mouseover text of the i-th circle: always the first year and its
        count, whatever year is shown. */
    method HoverText(i: int) returns (tip: Tip)
      requires Valid() && 0 <= i < |marks|
      ensures tip.kind == types[i] && tip.year == years[0]
      ensures var first := YearTable(nested, years[0]);
        tip.count == if types[i] in first then first[types[i]] else 0
    {
      tip := Hover(marks[i]);
    }
  }

  /** Play from the first year until the interval stops: exactly one tick
      per year, ending on the first year with the timer cleared, Play
      enabled and Pause disabled again. */
  method PlayCycle(p: Player) returns (ticks: nat)
    requires p.Valid() && p.timer.None? && p.currentYear == p.years[0]
    modifies p
    ensures p.Valid() && p.timer.None? && p.currentYear == p.years[0]
    ensures !p.playDisabled && p.pauseDisabled
    ensures ticks == |p.years|
  {
    p.Play();
    ticks := 0;
    while p.timer.Some?
      invariant p.Valid() && ticks <= |p.years|
      invariant p.timer.Some? ==> ticks < |p.years| && p.currentYear == p.years[ticks]
      invariant p.timer.None? ==> ticks == |p.years| && p.currentYear == p.years[0]
      invariant p.timer.None? ==> !p.playDisabled && p.pauseDisabled
      decreases |p.years| - ticks
    {
      NextYearAt(p.years, ticks);
      p.Tick();
      ticks := ticks + 1;
    }
  }

  /** Play pressed and k firings as written, from the first year: the
      timer is still set, the year is years[k mod n], and the buttons are
      as they were. */
  method CycleAsWritten(p: Player, k: nat)
    requires p.Valid() && p.timer.None? && p.currentYear == p.years[0]
    modifies p
    ensures p.Valid() && p.timer.Some?
    ensures Playback(p.currentYear, p.timer.Some?) == RunAsWritten(p.years, Playback(p.years[0], true), k)
    ensures p.playDisabled == old(p.playDisabled) && p.pauseDisabled == old(p.pauseDisabled)
  {
    p.PlayAsWritten();
    var n := 0;
    while n < k
      invariant p.Valid() && p.timer.Some? && n <= k
      invariant Playback(p.currentYear, true) == RunAsWritten(p.years, Playback(p.years[0], true), n)
      invariant p.playDisabled == old(p.playDisabled) && p.pauseDisabled == old(p.pauseDisabled)
    {
      RunAsWrittenSnoc(p.years, Playback(p.years[0], true), n);
      p.TickAsWritten();
      n := n + 1;
    }
  }

  /** The page loaded with `data`, then Play pressed, until the interval
      stops. */
  method Replay(data: seq<Record>) returns (year: int, running: bool, ticks: nat)
    requires data != []
    ensures year == Years(data)[0] && !running && ticks == |Years(data)|
  {
    var p := new Player(data);
    ticks := PlayCycle(p);
    year := p.currentYear;
    running := p.timer.Some?;
  }

  /** The page loaded with `data`, Play pressed, up to k firings, then
      Pause pressed, which a browser ignores while the button is disabled:
      playback is stopped and Play is enabled. */
  method PlayThenPause(data: seq<Record>, k: nat) returns (running: bool, playEnabled: bool)
    requires data != []
    ensures !running && playEnabled
  {
    var p := new Player(data);
    p.Play();
    var n := 0;
    while n < k && p.timer.Some?
      invariant p.Valid() && p.Pausable()
      invariant p.timer.None? ==> !p.playDisabled
      decreases k - n
    {
      p.Tick();
      n := n + 1;
    }
    p.ClickPause();
    running := p.timer.Some?;
    playEnabled := !p.playDisabled;
  }

  /** The page loaded with `data`, then Play pressed, k firings and Pause
      pressed, as written: the Pause button is still disabled, so the
      press does nothing, and after k ticks the year is years[k mod n] with
      the timer still running. */
  method ReplayAsWritten(data: seq<Record>, k: nat) returns (year: int, running: bool, pauseEnabled: bool)
    requires data != []
    ensures Years(data) != [] && year == Years(data)[k % |Years(data)|] && running && !pauseEnabled
  {
    var p := new Player(data);
    CycleAsWritten(p, k);
    RunAsWrittenNeverStops(p.years, k);
    p.ClickPauseAsWritten();
    pauseEnabled := !p.pauseDisabled;
    year := p.currentYear;
    running := p.timer.Some?;
  }

  /** The sample replay: four ticks, back on 2020, timer cleared. */
  method SampleReplay() returns (year: int, running: bool, ticks: nat)
    ensures year == 2020 && !running && ticks == 4
  {
    year, running, ticks := Replay(SampleData());
    SampleYears();
  }

  /** The sample replay as written: after five ticks and a press of Pause
      it shows 2021 and is still running. */
  method SampleReplayAsWritten() returns (year: int, running: bool)
    ensures year == 2021 && running
  {
    SampleYears();
    var pauseEnabled;
    year, running, pauseEnabled := ReplayAsWritten(SampleData(), 5);
    assert 5 % 4 == 1;
  }
}
