/** `_mini_plan_from_keys`: the narrowed plan sent when recipes are still
    missing. The keys are indexed by week and day (the nested defaultdict);
    then every week, day and menu of the full plan is kept or dropped. */
module MiniPlan {
  import opened Wrappers
  import opened Text
  import opened Records

  /** The main dishes the keys name for week `w`, day `t` (`need`). */
  function NeedHg(keys: seq<ItemKey>, w: int, t: string): set<string> {
    set k | k in keys && k.woche == w && k.tag == t :: k.hg
  }

  /** The menu names the keys name for week `w`, day `t` (`menus`). */
  function NeedMenus(keys: seq<ItemKey>, w: int, t: string): set<string> {
    set k | k in keys && k.woche == w && k.tag == t :: k.menu
  }

  predicate HasWeek(keys: seq<ItemKey>, w: int) {
    exists k :: k in keys && k.woche == w
  }

  predicate HasDay(keys: seq<ItemKey>, w: int, t: string) {
    exists k :: k in keys && k.woche == w && k.tag == t
  }

  /** One entry of the index: `{"need": ..., "menus": ...}`. */
  datatype Need = Need(hgs: set<string>, menus: set<string>)

  /** The keep test for one menu: its name and its main dish are each among
      the day's key values (not necessarily from the same key). */
  predicate Wanted(need: Need, m: Menu) {
    m.menuName.Some? && m.menuName.value in need.menus
    && LunchHg(m).Some? && LunchHg(m).value in need.hgs
  }

  function NeedOf(keys: seq<ItemKey>, w: int, t: string): Need {
    Need(NeedHg(keys, w, t), NeedMenus(keys, w, t))
  }

  /** The menus of one day that pass, in their order. */
  function KeepMenues(need: Need, ms: seq<Menu>): seq<Menu> {
    if ms == [] then []
    else
      var n := |ms| - 1;
      KeepMenues(need, ms[..n]) + (if Wanted(need, ms[n]) then [ms[n]] else [])
  }

  /** The days of week `w` that keep at least one menu, reduced to those menus. */
  function KeepDays(keys: seq<ItemKey>, w: int, ts: seq<Day>): (r: seq<Day>)
    ensures forall j :: 0 <= j < |r| ==> r[j].tag.Some? && MenuesOf(r[j]) != []
  {
    if ts == [] then []
    else
      var n := |ts| - 1;
      var t := ts[n];
      KeepDays(keys, w, ts[..n])
        + (if t.tag.Some? && HasDay(keys, w, t.tag.value)
              && KeepMenues(NeedOf(keys, w, t.tag.value), MenuesOf(t)) != []
           then [Day(t.tag, Some(KeepMenues(NeedOf(keys, w, t.tag.value), MenuesOf(t))))]
           else [])
  }

  /** The weeks that keep at least one day. */
  function KeepWeeks(keys: seq<ItemKey>, ws: seq<Week>): (r: seq<Week>)
    ensures forall i :: 0 <= i < |r| ==> r[i].woche.Some? && TageOf(r[i]) != []
    ensures forall i, j :: 0 <= i < |r| && 0 <= j < |TageOf(r[i])| ==> MenuesOf(TageOf(r[i])[j]) != []
  {
    if ws == [] then []
    else
      var n := |ws| - 1;
      var w := ws[n];
      KeepWeeks(keys, ws[..n])
        + (if w.woche.Some? && HasWeek(keys, w.woche.value)
              && KeepDays(keys, w.woche.value, TageOf(w)) != []
           then [Week(w.woche, Some(KeepDays(keys, w.woche.value, TageOf(w))))]
           else [])
  }

  /** The narrowed plan: kept weeks, `menuLinien` and `menuNamen` (default
      []) carried over. */
  function MiniPlanOf(p: Plan, keys: seq<ItemKey>): Plan {
    Plan(KeepWeeks(keys, p.wochen), p.menuLinien, Some(p.menuNamen.GetOr([])))
  }

  // ---------------------------------------------------------------------
  // The imperative version

  /** The index for a prefix of the keys. */
  ghost predicate IndexOf(idx: map<int, map<string, Need>>, keys: seq<ItemKey>) {
    (forall w :: w in idx <==> HasWeek(keys, w))
    && (forall w, t :: w in idx ==> (t in idx[w] <==> HasDay(keys, w, t)))
    && (forall w, t :: w in idx && t in idx[w] ==> idx[w][t] == NeedOf(keys, w, t))
  }

  /** The defaultdict filling loop. */
  method BuildIndex(keys: seq<ItemKey>) returns (idx: map<int, map<string, Need>>)
    ensures IndexOf(idx, keys)
  {
    idx := map[];
    for i := 0 to |keys|
      invariant IndexOf(idx, keys[..i])
    {
      idx := AddKey(idx, keys[..i], keys[i]);
      assert keys[..i + 1] == keys[..i] + [keys[i]];
    }
    assert keys[..|keys|] == keys;
  }

  /** `by_w[w][t]["need"].add(hg); by_w[w][t]["menus"].add(menu)` */
  method AddKey(idx: map<int, map<string, Need>>, ghost done: seq<ItemKey>, k: ItemKey)
    returns (idx': map<int, map<string, Need>>)
    requires IndexOf(idx, done)
    ensures IndexOf(idx', done + [k])
  {
    var days := if k.woche in idx then idx[k.woche] else map[];
    var need := if k.tag in days then days[k.tag] else Need({}, {});
    idx' := idx[k.woche := days[k.tag := Need(need.hgs + {k.hg}, need.menus + {k.menu})]];
    var all := done + [k];
    forall w, t | w in idx' && t in idx'[w] ensures idx'[w][t] == NeedOf(all, w, t) {
      NeedSnoc(done, k, w, t);
    }
    forall w ensures w in idx' <==> HasWeek(all, w) {
      assert k in all;
      if HasWeek(all, w) {
        var x :| x in all && x.woche == w;
        if x != k { assert x in done; }
      }
    }
    forall w, t | w in idx' ensures t in idx'[w] <==> HasDay(all, w, t) {
      assert k in all;
      if HasDay(all, w, t) {
        var x :| x in all && x.woche == w && x.tag == t;
        if x != k { assert x in done; }
      }
    }
  }

  lemma NeedSnoc(done: seq<ItemKey>, k: ItemKey, w: int, t: string)
    ensures NeedOf(done + [k], w, t) ==
      if k.woche == w && k.tag == t
      then Need(NeedHg(done, w, t) + {k.hg}, NeedMenus(done, w, t) + {k.menu})
      else NeedOf(done, w, t)
  {
    var all := done + [k];
    assert forall x :: x in all <==> x in done || x == k;
  }

  /** The menu loop: `new_menues.append(m)` for every menu that passes. */
  method FilterMenues(need: Need, ms: seq<Menu>) returns (r: seq<Menu>)
    ensures r == KeepMenues(need, ms)
  {
    r := [];
    for l := 0 to |ms|
      invariant r == KeepMenues(need, ms[..l])
    {
      assert ms[..l + 1][..l] == ms[..l];
      if Wanted(need, ms[l]) {
        r := r + [ms[l]];
      }
    }
    assert ms[..|ms|] == ms;
  }

  /** The day loop of one week. */
  method FilterDays(keys: seq<ItemKey>, wnr: int, days: map<string, Need>, ts: seq<Day>)
    returns (r: seq<Day>)
    requires forall t :: t in days <==> HasDay(keys, wnr, t)
    requires forall t :: t in days ==> days[t] == NeedOf(keys, wnr, t)
    ensures r == KeepDays(keys, wnr, ts)
  {
    r := [];
    for j := 0 to |ts|
      invariant r == KeepDays(keys, wnr, ts[..j])
    {
      assert ts[..j + 1][..j] == ts[..j];
      var t := ts[j];
      if t.tag.Some? && t.tag.value in days {
        var kept := FilterMenues(days[t.tag.value], MenuesOf(t));
        if kept != [] {
          r := r + [Day(t.tag, Some(kept))];
        }
      }
    }
    assert ts[..|ts|] == ts;
  }

  /** `_mini_plan_from_keys(full_plan, keys)` */
  method MiniPlanFromKeys(p: Plan, keys: seq<ItemKey>) returns (out: Plan)
    ensures out == MiniPlanOf(p, keys)
  {
    var idx := BuildIndex(keys);
    var weeks: seq<Week> := [];
    for i := 0 to |p.wochen|
      invariant weeks == KeepWeeks(keys, p.wochen[..i])
    {
      assert p.wochen[..i + 1][..i] == p.wochen[..i];
      var w := p.wochen[i];
      if w.woche.Some? && w.woche.value in idx {
        var days := FilterDays(keys, w.woche.value, idx[w.woche.value], TageOf(w));
        if days != [] {
          weeks := weeks + [Week(w.woche, Some(days))];
        }
      }
    }
    assert p.wochen[..|p.wochen|] == p.wochen;
    out := Plan(weeks, p.menuLinien, Some(p.menuNamen.GetOr([])));
  }

  // ---------------------------------------------------------------------
  // What the narrowed plan holds

  /** A kept day's menus are the passing menus of the original day, in
      their order and with their repetitions. */
  lemma {:induction false} KeepMenuesSpec(need: Need, ms: seq<Menu>)
    ensures IsSubseq(KeepMenues(need, ms), ms)
    ensures forall m :: multiset(KeepMenues(need, ms))[m] == if Wanted(need, m) then multiset(ms)[m] else 0
    decreases |ms|
  {
    if ms != [] {
      var n := |ms| - 1;
      KeepMenuesSpec(need, ms[..n]);
      assert ms == ms[..n] + [ms[n]];
      SnocSubseq(KeepMenues(need, ms[..n]), ms[..n], ms[n], Wanted(need, ms[n]));
    }
  }


  lemma KeepMenuesMembers(need: Need, ms: seq<Menu>, m: Menu)
    ensures m in KeepMenues(need, ms) <==> m in ms && Wanted(need, m)
  {
    KeepMenuesSpec(need, ms);
    assert m in KeepMenues(need, ms) <==> multiset(KeepMenues(need, ms))[m] > 0;
  }

  /** Menu `m` is listed on a day named `t` among `ts`. */
  predicate DayHas(ts: seq<Day>, t: string, m: Menu) {
    exists j :: 0 <= j < |ts| && ts[j].tag == Some(t) && m in MenuesOf(ts[j])
  }

  /** Menu `m` is listed on day `t` of a week numbered `w` of the plan. */
  predicate PlanHas(ws: seq<Week>, w: int, t: string, m: Menu) {
    exists i :: 0 <= i < |ws| && ws[i].woche == Some(w) && DayHas(TageOf(ws[i]), t, m)
  }

  lemma {:induction false} KeepDaysMembers(keys: seq<ItemKey>, w: int, ts: seq<Day>, t: string, m: Menu)
    ensures DayHas(KeepDays(keys, w, ts), t, m) <==> DayHas(ts, t, m) && Wanted(NeedOf(keys, w, t), m)
    decreases |ts|
  {
    if ts != [] {
      var n := |ts| - 1;
      var front, last := ts[..n], ts[n];
      var kd := KeepDays(keys, w, front);
      var e := KeepDays(keys, w, ts)[|kd|..];
      assert KeepDays(keys, w, ts) == kd + e;
      assert DayHas(ts, t, m) <==> DayHas(front, t, m) || DayHas([last], t, m) by {
        assert ts == front + [last];
        DayHasAppend(front, [last], t, m);
      }
      assert DayHas(kd + e, t, m) <==> DayHas(kd, t, m) || DayHas(e, t, m) by {
        DayHasAppend(kd, e, t, m);
      }
      KeepDaysMembers(keys, w, front, t, m);
      KeepLastDay(keys, w, ts, t, m);
    }
  }

  /** What KeepDays appends for the last day lists `m` on day `t` exactly
      when that day did and `m` is wanted. */
  lemma KeepLastDay(keys: seq<ItemKey>, w: int, ts: seq<Day>, t: string, m: Menu)
    requires ts != []
    ensures var e := KeepDays(keys, w, ts)[|KeepDays(keys, w, ts[..|ts| - 1])|..];
      DayHas(e, t, m) <==> DayHas([ts[|ts| - 1]], t, m) && Wanted(NeedOf(keys, w, t), m)
  {
    var n := |ts| - 1;
    var last := ts[n];
    var kd := KeepDays(keys, w, ts[..n]);
    var e := KeepDays(keys, w, ts)[|kd|..];
    var keep := last.tag.Some? && HasDay(keys, w, last.tag.value)
                && KeepMenues(NeedOf(keys, w, last.tag.value), MenuesOf(last)) != [];
    assert e == if keep then [Day(last.tag, Some(KeepMenues(NeedOf(keys, w, last.tag.value), MenuesOf(last))))] else [];
    assert DayHas([last], t, m) <==> last.tag == Some(t) && m in MenuesOf(last) by {
      assert [last][0] == last;
    }
    if last.tag == Some(t) {
      KeepMenuesMembers(NeedOf(keys, w, t), MenuesOf(last), m);
      if m in MenuesOf(last) && Wanted(NeedOf(keys, w, t), m) {
        var k :| k in keys && k.woche == w && k.tag == t && k.menu == m.menuName.value;
        assert HasDay(keys, w, t);
        assert e[0].tag == Some(t) && m in MenuesOf(e[0]);
      }
    }
  }

  lemma DayHasAppend(a: seq<Day>, b: seq<Day>, t: string, m: Menu)
    ensures DayHas(a + b, t, m) <==> DayHas(a, t, m) || DayHas(b, t, m)
  {
    if DayHas(a + b, t, m) {
      var j :| 0 <= j < |a + b| && (a + b)[j].tag == Some(t) && m in MenuesOf((a + b)[j]);
      if j >= |a| { assert b[j - |a|] == (a + b)[j]; }
    }
    if DayHas(b, t, m) {
      var j :| 0 <= j < |b| && b[j].tag == Some(t) && m in MenuesOf(b[j]);
      assert (a + b)[|a| + j] == b[j];
    }
    if DayHas(a, t, m) {
      var j :| 0 <= j < |a| && a[j].tag == Some(t) && m in MenuesOf(a[j]);
      assert (a + b)[j] == a[j];
    }
  }

  lemma PlanHasAppend(a: seq<Week>, b: seq<Week>, w: int, t: string, m: Menu)
    ensures PlanHas(a + b, w, t, m) <==> PlanHas(a, w, t, m) || PlanHas(b, w, t, m)
  {
    if PlanHas(a + b, w, t, m) {
      var i :| 0 <= i < |a + b| && (a + b)[i].woche == Some(w) && DayHas(TageOf((a + b)[i]), t, m);
      if i >= |a| { assert (a + b)[i] == b[i - |a|]; }
    }
    if PlanHas(b, w, t, m) {
      var i :| 0 <= i < |b| && b[i].woche == Some(w) && DayHas(TageOf(b[i]), t, m);
      assert (a + b)[|a| + i] == b[i];
    }
    if PlanHas(a, w, t, m) {
      var i :| 0 <= i < |a| && a[i].woche == Some(w) && DayHas(TageOf(a[i]), t, m);
      assert (a + b)[i] == a[i];
    }
  }

  /** One week's contribution to KeepWeeks. */
  lemma LastWeek(keys: seq<ItemKey>, x: Week, w: int, t: string, m: Menu)
    ensures var tail := if x.woche.Some? && HasWeek(keys, x.woche.value)
                           && KeepDays(keys, x.woche.value, TageOf(x)) != []
                        then [Week(x.woche, Some(KeepDays(keys, x.woche.value, TageOf(x))))]
                        else [];
      PlanHas(tail, w, t, m) <==> PlanHas([x], w, t, m) && Wanted(NeedOf(keys, w, t), m)
  {
    var tail := if x.woche.Some? && HasWeek(keys, x.woche.value)
                   && KeepDays(keys, x.woche.value, TageOf(x)) != []
                then [Week(x.woche, Some(KeepDays(keys, x.woche.value, TageOf(x))))]
                else [];
    if PlanHas([x], w, t, m) {
      assert [x][0] == x;
      assert x.woche == Some(w) && DayHas(TageOf(x), t, m);
      KeepDaysMembers(keys, w, TageOf(x), t, m);
      if Wanted(NeedOf(keys, w, t), m) {
        var k :| k in keys && k.woche == w && k.tag == t && k.menu == m.menuName.value;
        assert HasWeek(keys, w);
        assert tail[0].woche == Some(w) && DayHas(TageOf(tail[0]), t, m);
      }
    }
    if PlanHas(tail, w, t, m) {
      assert tail[0].woche == Some(w) && DayHas(TageOf(tail[0]), t, m);
      KeepDaysMembers(keys, w, TageOf(x), t, m);
      assert [x][0] == x;
    }
  }

  lemma {:induction false} KeepWeeksMembers(keys: seq<ItemKey>, ws: seq<Week>, w: int, t: string, m: Menu)
    ensures PlanHas(KeepWeeks(keys, ws), w, t, m) <==> PlanHas(ws, w, t, m) && Wanted(NeedOf(keys, w, t), m)
    decreases |ws|
  {
    if ws != [] {
      var n := |ws| - 1;
      var x := ws[n];
      KeepWeeksMembers(keys, ws[..n], w, t, m);
      var tail := if x.woche.Some? && HasWeek(keys, x.woche.value)
                     && KeepDays(keys, x.woche.value, TageOf(x)) != []
                  then [Week(x.woche, Some(KeepDays(keys, x.woche.value, TageOf(x))))]
                  else [];
      assert KeepWeeks(keys, ws) == KeepWeeks(keys, ws[..n]) + tail;
      PlanHasAppend(KeepWeeks(keys, ws[..n]), tail, w, t, m);
      assert ws == ws[..n] + [x];
      PlanHasAppend(ws[..n], [x], w, t, m);
      LastWeek(keys, x, w, t, m);
    }
  }

  /** A menu is in the narrowed plan under week `w`, day `t` exactly when
      the full plan lists it there, its `menuName` is a menu of some key for
      (`w`, `t`) and its main dish the main dish of some key for (`w`, `t`). */
  lemma MiniPlanMembers(p: Plan, keys: seq<ItemKey>, w: int, t: string, m: Menu)
    ensures PlanHas(MiniPlanOf(p, keys).wochen, w, t, m) <==>
      PlanHas(p.wochen, w, t, m)
      && (exists k :: k in keys && k.woche == w && k.tag == t && Some(k.menu) == m.menuName)
      && (exists k :: k in keys && k.woche == w && k.tag == t && Some(k.hg) == LunchHg(m))
  {
    KeepWeeksMembers(keys, p.wochen, w, t, m);
    if Wanted(NeedOf(keys, w, t), m) {
      var k :| k in keys && k.woche == w && k.tag == t && k.menu == m.menuName.value;
      var k' :| k' in keys && k'.woche == w && k'.tag == t && k'.hg == LunchHg(m).value;
    }
  }
}
