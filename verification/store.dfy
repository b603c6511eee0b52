/** The single shared state record of the dashboard and its four entry points.
    Every change is announced on the bus as "state:changed", carrying the
    whole state. Browser storage is an abstract key/value map. */
module StateStore {
  import opened Wrappers
  import opened Seqs
  import opened EventBus
  import JsMath
  import Decimal

  const StateChanged := "state:changed"
  /** The storage key under which the savings goal survives a reload. */
  const GoalKey := "saving-goal-won"
  /** The most search keywords the recent list keeps. */
  const MaxRecent := 6

  datatype Totals = Totals(now: int, last: int)
  datatype Breakdown = Breakdown(electricity: int, water: int)

  datatype State = State(
    page: string,
    totals: Totals,
    breakdown: Breakdown,
    goalWon: int,
    recentKeywords: seq<string>)

  /** The argument of `patch`: the top-level fields to overwrite. */
  datatype Partial = Partial(
    page: Option<string>,
    totals: Option<Totals>,
    breakdown: Option<Breakdown>,
    goalWon: Option<int>,
    recentKeywords: Option<seq<string>>)

  const NoFields := Partial(None, None, None, None, None)

  /** One call of `emit`: the event, its payload and the handlers it called. */
  datatype Emission = Emission(event: string, payload: State, calls: seq<HandlerId>)

  /** `Object.assign(state, partial)`: a shallow merge; a nested record
      that is supplied replaces the old one whole. */
  function Merge(s: State, p: Partial): (r: State)
    ensures p.page.Some? ==> r.page == p.page.value
    ensures p.totals.Some? ==> r.totals == p.totals.value
    ensures p.breakdown.Some? ==> r.breakdown == p.breakdown.value
    ensures p.goalWon.Some? ==> r.goalWon == p.goalWon.value
    ensures p.recentKeywords.Some? ==> r.recentKeywords == p.recentKeywords.value
    ensures p.page.None? ==> r.page == s.page
    ensures p.totals.None? ==> r.totals == s.totals
    ensures p.breakdown.None? ==> r.breakdown == s.breakdown
    ensures p.goalWon.None? ==> r.goalWon == s.goalWon
    ensures p.recentKeywords.None? ==> r.recentKeywords == s.recentKeywords
  {
    State(
      p.page.GetOr(s.page),
      p.totals.GetOr(s.totals),
      p.breakdown.GetOr(s.breakdown),
      p.goalWon.GetOr(s.goalWon),
      p.recentKeywords.GetOr(s.recentKeywords))
  }

  /** Patching with no fields leaves the state as it was. */
  lemma MergeNothing(s: State)
    ensures Merge(s, NoFields) == s
  {
  }

  /** Patching twice with the same fields is the same as patching once. */
  lemma MergeTwice(s: State, p: Partial)
    ensures Merge(Merge(s, p), p) == Merge(s, p)
  {
  }

  /** The last value a sequence of optional writes supplies, if any. */
  function Latest<T>(ws: seq<Option<T>>): (r: Option<T>)
    ensures r.Some? ==> r in ws
    ensures r.None? <==> forall i :: 0 <= i < |ws| ==> ws[i].None?
    ensures ws != [] && ws[|ws| - 1].Some? ==> r == ws[|ws| - 1]
    ensures r.Some? ==> exists j :: 0 <= j < |ws| && ws[j] == r && forall k :: j < k < |ws| ==> ws[k].None?
  {
    if ws == [] then None
    else if ws[|ws| - 1].Some? then ws[|ws| - 1]
    else Latest(ws[..|ws| - 1])
  }

  /** The writes a sequence of partials makes to one field, in order. */
  function Writes<T>(ps: seq<Partial>, field: Partial -> Option<T>): seq<Option<T>>
  {
    seq(|ps|, i requires 0 <= i < |ps| => field(ps[i]))
  }

  lemma WritesSnoc<T>(ps: seq<Partial>, field: Partial -> Option<T>)
    requires ps != []
    ensures Writes(ps, field) == Writes(ps[..|ps| - 1], field) + [field(ps[|ps| - 1])]
  {
  }

  // The fields of a partial, as functions.
  function PageField(p: Partial): Option<string> { p.page }
  function TotalsField(p: Partial): Option<Totals> { p.totals }
  function BreakdownField(p: Partial): Option<Breakdown> { p.breakdown }
  function GoalField(p: Partial): Option<int> { p.goalWon }
  function RecentField(p: Partial): Option<seq<string>> { p.recentKeywords }

  /** For every field, the last value any of the partials supplies. */
  function Combined(ps: seq<Partial>): Partial
  {
    Partial(
      Latest(Writes(ps, PageField)),
      Latest(Writes(ps, TotalsField)),
      Latest(Writes(ps, BreakdownField)),
      Latest(Writes(ps, GoalField)),
      Latest(Writes(ps, RecentField)))
  }

  /** The state after patching with each of `ps` in turn. */
  function Patched(s: State, ps: seq<Partial>): State
  {
    if ps == [] then s else Merge(Patched(s, ps[..|ps| - 1]), ps[|ps| - 1])
  }

  /** Last write wins, field by field: a run of patches has the effect of one
      patch holding, for each field, the value written to it last. */
  lemma {:induction false} PatchedIsLastWrite(s: State, ps: seq<Partial>)
    ensures Patched(s, ps) == Merge(s, Combined(ps))
  {
    if ps != [] {
      PatchedIsLastWrite(s, ps[..|ps| - 1]);
      WritesSnoc(ps, PageField);
      WritesSnoc(ps, TotalsField);
      WritesSnoc(ps, BreakdownField);
      WritesSnoc(ps, GoalField);
      WritesSnoc(ps, RecentField);
    }
  }

  /** `document.body.dataset.page || "home"`. */
  function PageOf(attribute: Option<string>): (page: string)
    ensures page != ""
    ensures attribute.Some? && attribute.value != "" ==> page == attribute.value
    ensures attribute.None? || attribute.value == "" ==> page == "home"
  {
    if attribute.Some? && attribute.value != "" then attribute.value else "home"
  }

  /** `Number(localStorage.getItem(GoalKey) || 0)`, for a stored value in the
      form `setGoal` writes it; a missing or empty entry reads as 0. */
  function StoredGoal(storage: map<string, string>): (goal: nat)
    ensures GoalKey !in storage ==> goal == 0
  {
    if GoalKey in storage && Decimal.AllDigits(storage[GoalKey])
    then Decimal.Read(storage[GoalKey])
    else 0
  }

  /** `Math.max(0, Math.round(+v || 0))`; `None` is an argument that is not
      a number. */
  function GoalFrom(v: Option<real>): (goal: nat)
    ensures goal == 0 <==> v.None? || v.value < 0.5
    ensures goal > 0 ==> -0.5 <= v.value - goal as real < 0.5
  {
    if v.None? then 0
    else
      var rounded := JsMath.Round(v.value);
      if rounded < 0 then 0 else rounded
  }

  /** What `setGoal` persists is what a later page load restores. */
  lemma GoalSurvivesReload(storage: map<string, string>, v: Option<real>)
    ensures StoredGoal(storage[GoalKey := Decimal.Show(GoalFrom(v))]) == GoalFrom(v)
  {
    Decimal.ReadShow(GoalFrom(v));
  }

  /** `setGoal(-5)` stores 0 and `setGoal(1000.6)` stores 1001. */
  lemma GoalExamples()
    ensures GoalFrom(Some(-5.0)) == 0
    ensures GoalFrom(Some(1000.6)) == 1001
    ensures GoalFrom(Some(0.5)) == 1
    ensures GoalFrom(None) == 0
  {
  }

  /** The recent-keyword list after `addRecentKeyword(q)`: an empty or known
      keyword changes nothing; a new one goes in front and, when the list
      grows past six, the last entry is dropped. */
  function WithRecent(list: seq<string>, q: string): (r: seq<string>)
    ensures q == "" || q in list ==> r == list
    ensures q != "" && q !in list ==>
      && |r| == (if |list| < MaxRecent then |list| + 1 else |list|)
      && r[0] == q
      && r[1..] == list[..|r| - 1]
  {
    if q == "" || q in list then list
    else
      var grown := [q] + list;
      if |grown| > MaxRecent then grown[..|grown| - 1] else grown
  }

  /** The list changes exactly when the keyword is new and not empty. */
  lemma WithRecentChanges(list: seq<string>, q: string)
    ensures WithRecent(list, q) != list <==> q != "" && q !in list
  {
    if q != "" && q !in list {
      assert WithRecent(list, q)[0] == q;
      if list != [] {
        assert list[0] != q;
      }
    }
  }

  /** Adding a keyword keeps the list at most six long and free of duplicates,
      and adding the same keyword again changes nothing more. */
  lemma WithRecentInvariant(list: seq<string>, q: string)
    requires |list| <= MaxRecent && NoDups(list)
    ensures |WithRecent(list, q)| <= MaxRecent
    ensures NoDups(WithRecent(list, q))
    ensures WithRecent(WithRecent(list, q), q) == WithRecent(list, q)
  {
    if q != "" && q !in list {
      var r := WithRecent(list, q);
      assert r == [q] + r[1..];
      assert q !in r[1..];
      NoDupsCons(q, r[1..]);
    }
  }

  /** The list after adding each of `qs` in turn. */
  function AllRecent(list: seq<string>, qs: seq<string>): seq<string>
    decreases qs
  {
    if qs == [] then list else AllRecent(WithRecent(list, qs[0]), qs[1..])
  }

  /** However many keywords are searched, the list stays at most six long and
      free of duplicates. */
  lemma {:induction false} AllRecentInvariant(list: seq<string>, qs: seq<string>)
    requires |list| <= MaxRecent && NoDups(list)
    ensures |AllRecent(list, qs)| <= MaxRecent && NoDups(AllRecent(list, qs))
    decreases qs
  {
    if qs != [] {
      WithRecentInvariant(list, qs[0]);
      AllRecentInvariant(WithRecent(list, qs[0]), qs[1..]);
    }
  }

  class Store {
    const bus: Bus
    var state: State
    /** The browser's key/value storage, as far as the store uses it. */
    var storage: map<string, string>
    /** Every emit the store has made, oldest first. */
    var emissions: seq<Emission>

    ghost predicate Valid()
      reads this, bus
    {
      bus.Valid()
    }

    /** The initial state: the page from the body's `data-page` attribute,
        zero totals and breakdown, the goal restored from storage and no
        recent keywords. */
    constructor (bus: Bus, pageAttribute: Option<string>, storage: map<string, string>)
      requires bus.Valid()
      ensures Valid() && this.bus == bus
      ensures state == State(PageOf(pageAttribute), Totals(0, 0), Breakdown(0, 0),
                             StoredGoal(storage), [])
      ensures this.storage == storage && emissions == []
    {
      this.bus := bus;
      state := State(PageOf(pageAttribute), Totals(0, 0), Breakdown(0, 0),
                     StoredGoal(storage), []);
      this.storage := storage;
      emissions := [];
    }

    /** `bus.emit("state:changed", state)`. */
    method Announce()
      requires Valid()
      modifies this`emissions
      ensures emissions == old(emissions) + [Emission(StateChanged, state, bus.Listeners(StateChanged))]
    {
      var calls := bus.Emit(StateChanged);
      emissions := emissions + [Emission(StateChanged, state, calls)];
    }

    /** `patch`: overwrites the supplied fields and emits once, even when no
        field is supplied. */
    method Patch(p: Partial)
      requires Valid()
      modifies this
      ensures Valid()
      ensures state == Merge(old(state), p) && storage == old(storage)
      ensures emissions == old(emissions) + [Emission(StateChanged, state, bus.Listeners(StateChanged))]
    {
      state := Merge(state, p);
      Announce();
    }

    /** `setGoal`: stores the rounded, non-negative goal, persists it and
        emits once. */
    method SetGoal(v: Option<real>)
      requires Valid()
      modifies this
      ensures Valid()
      ensures state == old(state).(goalWon := GoalFrom(v)) && state.goalWon >= 0
      ensures storage == old(storage)[GoalKey := Decimal.Show(GoalFrom(v))]
      ensures emissions == old(emissions) + [Emission(StateChanged, state, bus.Listeners(StateChanged))]
    {
      state := state.(goalWon := GoalFrom(v));
      storage := storage[GoalKey := Decimal.Show(state.goalWon)];
      Announce();
    }

    /** `clearGoal`: the goal is 0, the persisted entry is gone, one emit. */
    method ClearGoal()
      requires Valid()
      modifies this
      ensures Valid()
      ensures state == old(state).(goalWon := 0)
      ensures storage == old(storage) - {GoalKey} && GoalKey !in storage
      ensures emissions == old(emissions) + [Emission(StateChanged, state, bus.Listeners(StateChanged))]
    {
      state := state.(goalWon := 0);
      storage := storage - {GoalKey};
      Announce();
    }

    /** `addRecentKeyword`: emits only when the list changes. */
    method AddRecentKeyword(q: string)
      requires Valid()
      modifies this
      ensures Valid()
      ensures state == old(state).(recentKeywords := WithRecent(old(state.recentKeywords), q))
      ensures storage == old(storage)
      ensures state.recentKeywords == old(state.recentKeywords) ==> emissions == old(emissions)
      ensures state.recentKeywords != old(state.recentKeywords) ==>
        emissions == old(emissions) + [Emission(StateChanged, state, bus.Listeners(StateChanged))]
    {
      if q == "" {
        return;
      }
      var list := state.recentKeywords;
      if q !in list {
        list := [q] + list;
        if |list| > MaxRecent {
          list := list[..|list| - 1];
        }
        state := state.(recentKeywords := list);
        WithRecentChanges(old(state.recentKeywords), q);
        Announce();
      }
    }
  }
}
