/** The arithmetic behind the dashboard widgets: month-over-month change,
    relative bars, category shares, savings progress and the navigation dot. */
module Render {
  import opened JsMath
  import opened Wrappers
  import opened JsLookup

  /** `last ? Math.round((now - last) / last * 100) : 0`. */
  function DiffPct(now: int, last: int): (r: int)
    ensures last == 0 ==> r == 0
    ensures last > 0 && r > 0 ==> now > last
    ensures last > 0 && r < 0 ==> now < last
    ensures now == last ==> r == 0
    ensures last != 0 ==> -0.5 <= ((now - last) as real) / (last as real) * 100.0 - r as real < 0.5
  {
    if last == 0 then 0 else Percent(now - last, last)
  }

  /** The summary line: higher or lower by a whole percentage, or the same. */
  datatype Trend = Higher(pct: nat) | Lower(pct: nat) | Same

  function TrendOf(now: int, last: int): (t: Trend)
    ensures t.Higher? <==> DiffPct(now, last) > 0
    ensures t.Lower? <==> DiffPct(now, last) < 0
    ensures !t.Same? ==> t.pct > 0 && (t.pct == DiffPct(now, last) || t.pct == -DiffPct(now, last))
  {
    var d := DiffPct(now, last);
    if d > 0 then Higher(d) else if d < 0 then Lower(-d) else Same
  }

  /** The arrow shown beside the summary line. */
  function Arrow(t: Trend): (glyph: string)
    ensures |glyph| == 1
    ensures glyph == "▲" <==> t.Higher?
    ensures glyph == "▼" <==> t.Lower?
    ensures t.Same? ==> glyph == "•"
  {
    match t
    case Higher(_) => "▲"
    case Lower(_) => "▼"
    case Same => "•"
  }

  /** The comparison at the top of the dashboard: this month 32600, last
      month 37000, is 12 percent lower. */
  lemma SummaryExample()
    ensures DiffPct(32600, 37000) == -12
    ensures TrendOf(32600, 37000) == Lower(12)
  {
  }

  /** `Math.max(now, last) || 1`. */
  function BarScale(now: int, last: int): (m: int)
    ensures m != 0
    ensures (m >= now && m >= last) || m == 1
    ensures || (m >= now && m >= last && (m == now || m == last))
            || (m == 1 && (now == 0 || last == 0) && now <= 0 && last <= 0)
  {
    var m := if now >= last then now else last;
    if m == 0 then 1 else m
  }

  /** The widths, in percent, of the last-month and this-month bars. */
  function BarWidths(now: int, last: int): (widths: (int, int))
    ensures var m := BarScale(now, last) as real;
      && -0.5 <= (last as real) / m * 100.0 - widths.0 as real < 0.5
      && -0.5 <= (now as real) / m * 100.0 - widths.1 as real < 0.5
  {
    var m := BarScale(now, last);
    (Percent(last, m), Percent(now, m))
  }

  /** With non-negative totals both bars fit in 0..100 percent and the larger
      total fills its bar. */
  lemma BarWidthsBounded(now: int, last: int)
    requires now >= 0 && last >= 0
    ensures var (lw, nw) := BarWidths(now, last);
      0 <= lw <= 100 && 0 <= nw <= 100
      && (now + last > 0 ==> lw == 100 || nw == 100)
  {
    var m := BarScale(now, last);
    if now + last > 0 {
      assert m == (if now >= last then now else last);
      PercentBounds(last, m);
      PercentBounds(now, m);
      PercentOfWhole(m);
    } else {
      assert m == 1;
      PercentBounds(0, 1);
    }
  }

  /** A category's share of this month's total, in percent: the total is
      `now || 1`. */
  function SharePct(part: int, now: int): (pct: int)
    ensures now != 0 ==> -0.5 <= (part as real) / (now as real) * 100.0 - pct as real < 0.5
    ensures now == 0 ==> pct == 100 * part
  {
    Percent(part, if now == 0 then 1 else now)
  }

  /** A part of a positive total gets a share between 0 and 100 percent, and
      the whole total gets 100. */
  lemma SharePctBounds(part: int, now: int)
    requires 0 <= part <= now && now > 0
    ensures 0 <= SharePct(part, now) <= 100
    ensures part == now ==> SharePct(part, now) == 100
  {
    PercentBounds(part, now);
    if part == now { PercentOfWhole(now); }
  }

  /** Electricity 13830 of a total 21650 is a 64 percent share. */
  lemma ShareExample()
    ensures SharePct(13830, 21650) == 64
  {
  }

  /** `calcSaved`: how much less was spent than last month, never negative. */
  function Saved(now: int, last: int): (saved: int)
    ensures saved >= 0 && saved >= last - now
    ensures saved == 0 || saved == last - now
  {
    if last - now > 0 then last - now else 0
  }

  /** Progress towards the goal, in percent: 0 when no goal is set, and capped
      at 100. */
  function GoalPct(saved: int, goal: int): (pct: int)
    ensures goal <= 0 ==> pct == 0
    ensures pct <= 100
    ensures goal > 0 && pct < 100 ==> -0.5 <= (saved as real) / (goal as real) * 100.0 - pct as real < 0.5
    ensures goal > 0 && pct == 100 ==> (saved as real) / (goal as real) * 100.0 >= 99.5
  {
    if goal > 0 then
      var p := Percent(saved, goal);
      if p < 100 then p else 100
    else 0
  }

  /** With a non-negative saving, progress lies in 0..100, and it is 100 once
      the saving reaches the goal. */
  lemma GoalPctBounds(saved: int, goal: int)
    requires saved >= 0
    ensures 0 <= GoalPct(saved, goal) <= 100
    ensures goal > 0 && saved >= goal ==> GoalPct(saved, goal) == 100
  {
    if goal > 0 {
      if saved <= goal {
        PercentBounds(saved, goal);
      }
      if saved >= goal {
        PercentAtLeastWhole(saved, goal);
      }
    }
  }

  /** What is still to be saved: `Math.max(goal - saved, 0)`. */
  function Remaining(saved: int, goal: int): (rest: int)
    ensures rest >= 0 && rest >= goal - saved
    ensures rest == 0 || rest == goal - saved
  {
    if goal - saved > 0 then goal - saved else 0
  }

  /** The success marker is shown when a goal is set and has been reached. */
  predicate GoalReached(saved: int, goal: int)
    ensures GoalReached(saved, goal) ==> goal > 0 && Remaining(saved, goal) == 0
    ensures goal <= 0 ==> !GoalReached(saved, goal)
  {
    goal > 0 && saved >= goal
  }

  /** The marker, the remaining amount and the percentage agree: the goal is
      reached exactly when nothing remains, and then progress shows 100. */
  lemma GoalProgressAgrees(saved: int, goal: int)
    requires goal > 0 && saved >= 0
    ensures GoalReached(saved, goal) <==> Remaining(saved, goal) == 0
    ensures GoalReached(saved, goal) ==> GoalPct(saved, goal) == 100
    ensures GoalPct(saved, goal) < 100 ==> !GoalReached(saved, goal)
  {
    GoalPctBounds(saved, goal);
  }

  /** This month 32600 against 37000 saves 4400, which is 44 percent of a
      10000 goal, not yet reached. */
  lemma GoalExample()
    ensures Saved(32600, 37000) == 4400
    ensures GoalPct(4400, 10000) == 44
    ensures !GoalReached(4400, 10000) && Remaining(4400, 10000) == 5600
  {
  }

  /** The navigation dot of each page (several pages share the third dot). */
  const NavTable: map<string, nat> := map[
    "home" := 0, "cost" := 1, "analytics" := 2, "alerts" := 3,
    "settings" := 4, "log" := 2, "search" := 2]

  /** The value `map[page] ?? 0` takes: a dot number, or an inherited member
      that is not a number at all. */
  datatype NavValue = Dot(index: nat) | NotANumber(name: string)

  /** `map[page] ?? 0` as written. */
  function NavIndexAsWritten(page: string): (v: NavValue)
    ensures v.NotANumber? <==> page !in NavTable && page in InheritedNames
  {
    match LookupAsWritten(NavTable, page)
    case Own(i) => Dot(i)
    case Inherited(name) => NotANumber(name)
    case Undefined => Dot(0)
  }

  /** The dots marked active among the first `count`: those whose position
      equals the looked-up value (`i === idx`). */
  function ActiveDots(count: nat, v: NavValue): (active: set<nat>)
    ensures forall i :: i in active ==> i < count
    ensures v.NotANumber? ==> active == {}
    ensures v.Dot? && v.index < count ==> active == {v.index}
  {
    set i: nat | i < count && v == Dot(i)
  }

  /** As written, a page named after an inherited member highlights no dot. */
  lemma NavInheritedPageHighlightsNothing()
    ensures NavIndexAsWritten("constructor") == NotANumber("constructor")
    ensures ActiveDots(5, NavIndexAsWritten("constructor")) == {}
  {
  }

  /** The navigation dot of a page: its own entry in the table, else the
      first dot. */
  function NavIndex(page: string): (i: nat)
    ensures i < 5
    ensures page in NavTable ==> i == NavTable[page]
    ensures page !in NavTable ==> i == 0
  {
    LookupOwn(NavTable, page).GetOr(0)
  }

  /** Every page highlights exactly one of the five dots, and for every page
      that is not an inherited name this is what the code as written does. */
  lemma NavHighlightsOneDot(page: string)
    ensures ActiveDots(5, Dot(NavIndex(page))) == {NavIndex(page)}
    ensures page !in InheritedNames ==> NavIndexAsWritten(page) == Dot(NavIndex(page))
  {
  }
}
