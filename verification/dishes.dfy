/** Dish collection and deduplication at the start of
    `generiere_rezepte_batch` (streamlit_app.py). Every menu with a
    `mittagessen` becomes a dish; dishes are then kept once per
    (main dish, sorted side dishes). A `[...]` lookup of an absent key
    raises KeyError, modelled as Err with the key's name. */
module Dishes {
  import opened Wrappers
  import opened Text
  import opened Records

  datatype Dish = Dish(gericht: string, beilagen: seq<string>, woche: int, tag: string, menu: string)

  type Collected = Result<seq<Dish>, string>

  /** The dish of one menu, in the order the dict literal evaluates its
      lookups: `hauptgericht`, then `woche`, `tag` and `menuName`. */
  function MenuDish(w: Week, t: Day, m: Menu): Result<seq<Dish>, string> {
    if m.mittagessen.None? then Ok([])
    else
      var mi := m.mittagessen.value;
      if mi.hauptgericht.None? then Err("hauptgericht")
      else if w.woche.None? then Err("woche")
      else if t.tag.None? then Err("tag")
      else if m.menuName.None? then Err("menuName")
      else Ok([Dish(mi.hauptgericht.value, mi.beilagen.GetOr([]), w.woche.value, t.tag.value, m.menuName.value)])
  }

  /** Appending the next step's dishes; the first KeyError wins. */
  function Then(before: Collected, here: Collected): Collected {
    if before.Err? then before else if here.Err? then here else Ok(before.value + here.value)
  }

  function MenusDishes(w: Week, t: Day, ms: seq<Menu>): Collected {
    if ms == [] then Ok([])
    else Then(MenusDishes(w, t, ms[..|ms| - 1]), MenuDish(w, t, ms[|ms| - 1]))
  }

  /** `tag['menues']` must exist. */
  function DayDishes(w: Week, t: Day): Collected {
    if t.menues.None? then Err("menues") else MenusDishes(w, t, t.menues.value)
  }

  function DaysDishes(w: Week, ts: seq<Day>): Collected {
    if ts == [] then Ok([])
    else Then(DaysDishes(w, ts[..|ts| - 1]), DayDishes(w, ts[|ts| - 1]))
  }

  /** `woche['tage']` must exist. */
  function WeekDishes(w: Week): Collected {
    if w.tage.None? then Err("tage") else DaysDishes(w, w.tage.value)
  }

  function WeeksDishes(ws: seq<Week>): Collected {
    if ws == [] then Ok([])
    else Then(WeeksDishes(ws[..|ws| - 1]), WeekDishes(ws[|ws| - 1]))
  }

  // ---------------------------------------------------------------------
  // The collecting loops

  lemma ThenErr(before: Collected, here: Collected)
    requires before.Err?
    ensures Then(before, here) == before
  {
  }

  lemma {:induction false} MenusErrStays(w: Week, t: Day, ms: seq<Menu>, i: nat)
    requires i <= |ms| && MenusDishes(w, t, ms[..i]).Err?
    ensures MenusDishes(w, t, ms) == MenusDishes(w, t, ms[..i])
    decreases |ms| - i
  {
    if i < |ms| {
      assert ms[..i + 1][..i] == ms[..i];
      MenusErrStays(w, t, ms, i + 1);
    } else {
      assert ms[..i] == ms;
    }
  }

  lemma {:induction false} DaysErrStays(w: Week, ts: seq<Day>, i: nat)
    requires i <= |ts| && DaysDishes(w, ts[..i]).Err?
    ensures DaysDishes(w, ts) == DaysDishes(w, ts[..i])
    decreases |ts| - i
  {
    if i < |ts| {
      assert ts[..i + 1][..i] == ts[..i];
      DaysErrStays(w, ts, i + 1);
    } else {
      assert ts[..i] == ts;
    }
  }

  lemma {:induction false} WeeksErrStays(ws: seq<Week>, i: nat)
    requires i <= |ws| && WeeksDishes(ws[..i]).Err?
    ensures WeeksDishes(ws) == WeeksDishes(ws[..i])
    decreases |ws| - i
  {
    if i < |ws| {
      assert ws[..i + 1][..i] == ws[..i];
      WeeksErrStays(ws, i + 1);
    } else {
      assert ws[..i] == ws;
    }
  }

  /** `for menu in tag['menues']: if 'mittagessen' in menu: alle_gerichte.append(...)` */
  method CollectMenus(w: Week, t: Day, ms: seq<Menu>) returns (r: Collected)
    ensures r == MenusDishes(w, t, ms)
  {
    var out: seq<Dish> := [];
    for l := 0 to |ms|
      invariant MenusDishes(w, t, ms[..l]) == Ok(out)
    {
      assert ms[..l + 1][..l] == ms[..l];
      var m := ms[l];
      if m.mittagessen.Some? {
        var mi := m.mittagessen.value;
        if mi.hauptgericht.None? || w.woche.None? || t.tag.None? || m.menuName.None? {
          MenusErrStays(w, t, ms, l + 1);
          return MenuDish(w, t, m);
        }
        out := out + [Dish(mi.hauptgericht.value, mi.beilagen.GetOr([]), w.woche.value, t.tag.value, m.menuName.value)];
      } else {
        assert out + [] == out;
      }
    }
    assert ms[..|ms|] == ms;
    return Ok(out);
  }

  method CollectDays(w: Week, ts: seq<Day>) returns (r: Collected)
    ensures r == DaysDishes(w, ts)
  {
    var out: seq<Dish> := [];
    for j := 0 to |ts|
      invariant DaysDishes(w, ts[..j]) == Ok(out)
    {
      assert ts[..j + 1][..j] == ts[..j];
      var t := ts[j];
      if t.menues.None? {
        DaysErrStays(w, ts, j + 1);
        return Err("menues");
      }
      var here := CollectMenus(w, t, t.menues.value);
      if here.Err? {
        DaysErrStays(w, ts, j + 1);
        return here;
      }
      out := out + here.value;
    }
    assert ts[..|ts|] == ts;
    return Ok(out);
  }

  /** The nested collection loop over `speiseplan['speiseplan']['wochen']`. */
  method CollectDishes(p: Plan) returns (r: Collected)
    ensures r == WeeksDishes(p.wochen)
  {
    var ws := p.wochen;
    var out: seq<Dish> := [];
    for i := 0 to |ws|
      invariant WeeksDishes(ws[..i]) == Ok(out)
    {
      assert ws[..i + 1][..i] == ws[..i];
      var w := ws[i];
      if w.tage.None? {
        WeeksErrStays(ws, i + 1);
        return Err("tage");
      }
      var here := CollectDays(w, w.tage.value);
      if here.Err? {
        WeeksErrStays(ws, i + 1);
        return here;
      }
      out := out + here.value;
    }
    assert ws[..|ws|] == ws;
    return Ok(out);
  }

  // ---------------------------------------------------------------------
  // Which dishes are collected

  /** The dish a lunch-bearing menu yields when all looked-up keys exist. */
  predicate Yields(w: Week, t: Day, m: Menu, d: Dish) {
    m.mittagessen.Some? && MenuDish(w, t, m) == Ok([d])
  }

  lemma ThenOk(before: Collected, here: Collected)
    requires Then(before, here).Ok?
    ensures before.Ok? && here.Ok? && Then(before, here).value == before.value + here.value
  {
  }

  lemma {:induction false} MenusDishesMembers(w: Week, t: Day, ms: seq<Menu>, d: Dish)
    requires MenusDishes(w, t, ms).Ok?
    ensures d in MenusDishes(w, t, ms).value <==> exists l :: 0 <= l < |ms| && Yields(w, t, ms[l], d)
    decreases |ms|
  {
    if ms != [] {
      var n := |ms| - 1;
      ThenOk(MenusDishes(w, t, ms[..n]), MenuDish(w, t, ms[n]));
      MenusDishesMembers(w, t, ms[..n], d);
      assert forall l :: 0 <= l < n ==> ms[..n][l] == ms[l];
    }
  }

  lemma {:induction false} DaysDishesMembers(w: Week, ts: seq<Day>, d: Dish)
    requires DaysDishes(w, ts).Ok?
    ensures d in DaysDishes(w, ts).value <==>
      exists j, l :: 0 <= j < |ts| && 0 <= l < |MenuesOf(ts[j])| && Yields(w, ts[j], MenuesOf(ts[j])[l], d)
    decreases |ts|
  {
    if ts != [] {
      var n := |ts| - 1;
      ThenOk(DaysDishes(w, ts[..n]), DayDishes(w, ts[n]));
      DaysDishesMembers(w, ts[..n], d);
      MenusDishesMembers(w, ts[n], MenuesOf(ts[n]), d);
      assert forall j :: 0 <= j < n ==> ts[..n][j] == ts[j];
    }
  }

  /** When no lookup fails, the dishes are exactly those of the menus that
      have a `mittagessen`, each carrying its week, day and menu name. */
  lemma {:induction false} CollectedDishes(ws: seq<Week>, d: Dish)
    requires WeeksDishes(ws).Ok?
    ensures d in WeeksDishes(ws).value <==>
      exists i, j, l :: 0 <= i < |ws| && 0 <= j < |TageOf(ws[i])| && 0 <= l < |MenuesOf(TageOf(ws[i])[j])| &&
        Yields(ws[i], TageOf(ws[i])[j], MenuesOf(TageOf(ws[i])[j])[l], d)
    decreases |ws|
  {
    if ws != [] {
      var n := |ws| - 1;
      ThenOk(WeeksDishes(ws[..n]), WeekDishes(ws[n]));
      CollectedDishes(ws[..n], d);
      DaysDishesMembers(ws[n], TageOf(ws[n]), d);
      assert forall i :: 0 <= i < n ==> ws[..n][i] == ws[i];
    }
  }

  /** A yielded dish carries the menu's main dish, side dishes (default
      []), week, day and menu name. */
  lemma YieldsFields(w: Week, t: Day, m: Menu, d: Dish)
    requires Yields(w, t, m, d)
    ensures Some(d.gericht) == m.mittagessen.value.hauptgericht
    ensures d.beilagen == m.mittagessen.value.beilagen.GetOr([])
    ensures Some(d.woche) == w.woche && Some(d.tag) == t.tag && Some(d.menu) == m.menuName
  {
  }

  // ---------------------------------------------------------------------
  // sorted(): Python compares str by code points, lexicographically

  predicate StrLe(a: string, b: string) {
    a == [] || (b != [] && (a[0] < b[0] || (a[0] == b[0] && StrLe(a[1..], b[1..]))))
  }

  lemma {:induction false} StrLeTotal(a: string, b: string)
    ensures StrLe(a, b) || StrLe(b, a)
  {
    if a != [] && b != [] && a[0] == b[0] {
      StrLeTotal(a[1..], b[1..]);
    }
  }

  lemma {:induction false} StrLeAntisym(a: string, b: string)
    requires StrLe(a, b) && StrLe(b, a)
    ensures a == b
  {
    if a != [] && b != [] {
      StrLeAntisym(a[1..], b[1..]);
      assert a == [a[0]] + a[1..] && b == [b[0]] + b[1..];
    }
  }

  lemma {:induction false} StrLeTrans(a: string, b: string, c: string)
    requires StrLe(a, b) && StrLe(b, c)
    ensures StrLe(a, c)
  {
    if a != [] && b != [] && c != [] && a[0] == b[0] && b[0] == c[0] {
      StrLeTrans(a[1..], b[1..], c[1..]);
    }
  }

  predicate Sorted(s: seq<string>) {
    forall i, j :: 0 <= i < j < |s| ==> StrLe(s[i], s[j])
  }

  lemma {:induction false} StrLeRefl(a: string)
    ensures StrLe(a, a)
  {
    if a != [] {
      StrLeRefl(a[1..]);
    }
  }

  /** Insert `x` before the first element it does not exceed. */
  function Insert(x: string, s: seq<string>): seq<string> {
    if s == [] then [x]
    else if StrLe(x, s[0]) then [x] + s
    else [s[0]] + Insert(x, s[1..])
  }

  /** `sorted(beilagen)`, as an insertion sort. */
  function SortStrings(s: seq<string>): seq<string> {
    if s == [] then [] else Insert(s[|s| - 1], SortStrings(s[..|s| - 1]))
  }

  lemma SortedCons(y: string, s: seq<string>)
    requires Sorted(s)
    requires forall z :: z in s ==> StrLe(y, z)
    ensures Sorted([y] + s)
  {
    forall i, j | 0 <= i < j < |[y] + s| ensures StrLe(([y] + s)[i], ([y] + s)[j]) {
      if i == 0 {
        assert ([y] + s)[j] == s[j - 1];
      } else {
        assert ([y] + s)[i] == s[i - 1] && ([y] + s)[j] == s[j - 1];
      }
    }
  }

  /** Inserting adds exactly one element. */
  lemma {:induction false} InsertMultiset(x: string, s: seq<string>)
    ensures multiset(Insert(x, s)) == multiset(s) + multiset{x}
    decreases |s|
  {
    if s != [] && !StrLe(x, s[0]) {
      InsertMultiset(x, s[1..]);
      assert s == [s[0]] + s[1..];
    }
  }

  /** Inserting into a sorted list keeps it sorted. */
  lemma {:induction false} InsertSorted(x: string, s: seq<string>)
    requires Sorted(s)
    ensures Sorted(Insert(x, s))
    decreases |s|
  {
    if s == [] {
    } else if StrLe(x, s[0]) {
      forall z | z in s ensures StrLe(x, z) {
        var j :| 0 <= j < |s| && s[j] == z;
        if j > 0 { StrLeTrans(x, s[0], s[j]); }
      }
      SortedCons(x, s);
    } else {
      var rest := Insert(x, s[1..]);
      assert Sorted(s[1..]);
      InsertSorted(x, s[1..]);
      assert forall z :: z in rest ==> StrLe(s[0], z) by {
        StrLeTotal(x, s[0]);
        InsertMultiset(x, s[1..]);
        forall z | z in rest ensures StrLe(s[0], z) {
          assert z in multiset(rest);
          if z != x {
            assert z in multiset(s[1..]);
            var j :| 0 <= j < |s[1..]| && s[1..][j] == z;
            assert s[j + 1] == z;
          }
        }
      }
      SortedCons(s[0], rest);
    }
  }

  /** The sort returns the same strings in order. */
  lemma {:induction false} SortStringsSpec(s: seq<string>)
    ensures multiset(SortStrings(s)) == multiset(s)
    ensures Sorted(SortStrings(s))
    decreases |s|
  {
    if s != [] {
      var n := |s| - 1;
      SortStringsSpec(s[..n]);
      InsertMultiset(s[n], SortStrings(s[..n]));
      InsertSorted(s[n], SortStrings(s[..n]));
      assert s == s[..n] + [s[n]];
    }
  }

  lemma SortedHeadLeast(a: seq<string>, x: string)
    requires Sorted(a) && x in a
    ensures StrLe(a[0], x)
  {
    var i :| 0 <= i < |a| && a[i] == x;
    if i == 0 { StrLeRefl(x); }
  }

  lemma DropHead(a: seq<string>)
    requires a != []
    ensures multiset(a[1..]) == multiset(a) - multiset{a[0]}
    ensures Sorted(a) ==> Sorted(a[1..])
  {
    assert a == [a[0]] + a[1..];
  }

  lemma HeadsEqual(a: seq<string>, b: seq<string>)
    requires Sorted(a) && Sorted(b) && multiset(a) == multiset(b) && a != []
    ensures b != [] && a[0] == b[0]
  {
    assert |b| == |multiset(b)| == |a|;
    assert a[0] in multiset(b) && b[0] in multiset(a);
    SortedHeadLeast(b, a[0]);
    SortedHeadLeast(a, b[0]);
    StrLeAntisym(a[0], b[0]);
  }

  /** Two sorted lists of the same strings are the same list. */
  lemma {:induction false} SortedUnique(a: seq<string>, b: seq<string>)
    requires Sorted(a) && Sorted(b) && multiset(a) == multiset(b)
    ensures a == b
    decreases |a|
  {
    if a != [] {
      HeadsEqual(a, b);
      DropHead(a);
      DropHead(b);
      SortedUnique(a[1..], b[1..]);
      assert a == [a[0]] + a[1..] && b == [b[0]] + b[1..];
    }
  }

  /** Side dishes listed in another order sort to the same list. */
  lemma SortedKeyIgnoresOrder(a: seq<string>, b: seq<string>)
    requires multiset(a) == multiset(b)
    ensures SortStrings(a) == SortStrings(b)
  {
    SortStringsSpec(a);
    SortStringsSpec(b);
    SortedUnique(SortStrings(a), SortStrings(b));
  }

  // ---------------------------------------------------------------------
  // Deduplication

  /** `(g['gericht'], tuple(sorted(g['beilagen'])))` */
  function DishKey(d: Dish): (string, seq<string>) {
    (d.gericht, SortStrings(d.beilagen))
  }

  function KeysOf(ds: seq<Dish>): set<(string, seq<string>)> {
    set d | d in ds :: DishKey(d)
  }

  /** The dishes whose key did not occur before them, in their order. */
  function FirstOccurrences(ds: seq<Dish>): seq<Dish> {
    if ds == [] then []
    else
      var n := |ds| - 1;
      FirstOccurrences(ds[..n]) + (if DishKey(ds[n]) in KeysOf(ds[..n]) then [] else [ds[n]])
  }

  lemma KeysOfSnoc(ds: seq<Dish>, d: Dish)
    ensures KeysOf(ds + [d]) == KeysOf(ds) + {DishKey(d)}
  {
    assert forall x :: x in ds + [d] <==> x in ds || x == d;
  }

  /** The dict filling: `unique_gerichte` as a map from key to dish plus
      its insertion order; the result is `list(unique_gerichte.values())`. */
  method Dedup(ds: seq<Dish>) returns (r: seq<Dish>)
    ensures r == FirstOccurrences(ds)
  {
    var unique: map<(string, seq<string>), Dish> := map[];
    var order: seq<(string, seq<string>)> := [];
    for i := 0 to |ds|
      invariant unique.Keys == KeysOf(ds[..i])
      invariant |order| == |FirstOccurrences(ds[..i])|
      invariant forall k :: 0 <= k < |order| ==> order[k] in unique && unique[order[k]] == FirstOccurrences(ds[..i])[k]
    {
      var key := DishKey(ds[i]);
      PrefixStep(ds, i);
      if key !in unique {
        unique := unique[key := ds[i]];
        order := order + [key];
      }
    }
    assert ds[..|ds|] == ds;
    r := seq(|order|, k requires 0 <= k < |order| && order[k] in unique => unique[order[k]]);
  }

  /** One more dish: how the prefix's keys and first occurrences grow. */
  lemma PrefixStep(ds: seq<Dish>, i: nat)
    requires i < |ds|
    ensures KeysOf(ds[..i + 1]) == KeysOf(ds[..i]) + {DishKey(ds[i])}
    ensures FirstOccurrences(ds[..i + 1]) ==
      FirstOccurrences(ds[..i]) + (if DishKey(ds[i]) in KeysOf(ds[..i]) then [] else [ds[i]])
  {
    assert ds[..i + 1] == ds[..i] + [ds[i]];
    KeysOfSnoc(ds[..i], ds[i]);
    assert ds[..i + 1][..i] == ds[..i];
  }

  /** The kept dishes appear in the input, in the same order. */
  lemma {:induction false} FirstOccurrencesSubseq(ds: seq<Dish>)
    ensures IsSubseq(FirstOccurrences(ds), ds)
    decreases |ds|
  {
    if ds != [] {
      var n := |ds| - 1;
      FirstOccurrencesSubseq(ds[..n]);
      assert ds == ds[..n] + [ds[n]];
      SnocSubseq(FirstOccurrences(ds[..n]), ds[..n], ds[n], DishKey(ds[n]) !in KeysOf(ds[..n]));
    }
  }

  /** Every key of the input is kept. */
  lemma {:induction false} FirstOccurrencesKeys(ds: seq<Dish>)
    ensures KeysOf(FirstOccurrences(ds)) == KeysOf(ds)
    decreases |ds|
  {
    if ds != [] {
      var n := |ds| - 1;
      FirstOccurrencesKeys(ds[..n]);
      assert ds == ds[..n] + [ds[n]];
      KeysOfSnoc(ds[..n], ds[n]);
      if DishKey(ds[n]) !in KeysOf(ds[..n]) {
        KeysOfSnoc(FirstOccurrences(ds[..n]), ds[n]);
      } else {
        assert FirstOccurrences(ds) == FirstOccurrences(ds[..n]) + [];
      }
    }
  }

  /** No two kept dishes share a key. */
  lemma {:induction false} FirstOccurrencesDistinct(ds: seq<Dish>)
    ensures forall i, j :: 0 <= i < j < |FirstOccurrences(ds)| ==>
      DishKey(FirstOccurrences(ds)[i]) != DishKey(FirstOccurrences(ds)[j])
    decreases |ds|
  {
    if ds != [] {
      var n := |ds| - 1;
      var f := FirstOccurrences(ds[..n]);
      FirstOccurrencesDistinct(ds[..n]);
      FirstOccurrencesKeys(ds[..n]);
      var r := FirstOccurrences(ds);
      if DishKey(ds[n]) !in KeysOf(ds[..n]) {
        assert r == f + [ds[n]];
        forall i | 0 <= i < |f| ensures DishKey(r[i]) != DishKey(ds[n]) {
          assert r[i] == f[i] && f[i] in f;
        }
      } else {
        assert r == f + [];
      }
    }
  }

  /** No dish before position `i` has the key of the dish at `i`. */
  predicate FirstOfKey(ds: seq<Dish>, i: int)
    requires 0 <= i < |ds|
  {
    DishKey(ds[i]) !in KeysOf(ds[..i])
  }

  /** A kept dish is the first dish of the input with its key. */
  lemma FirstOccurrencesFirst(ds: seq<Dish>)
    ensures forall d :: d in FirstOccurrences(ds) ==>
      exists i :: 0 <= i < |ds| && ds[i] == d && FirstOfKey(ds, i)
  {
    var r := FirstOccurrences(ds);
    forall d | d in r
      ensures exists i :: 0 <= i < |ds| && ds[i] == d && FirstOfKey(ds, i)
    {
      var k :| 0 <= k < |r| && r[k] == d;
      var i := FirstIndex(ds, k);
      assert FirstOfKey(ds, i);
    }
  }

  /** Where the `k`-th kept dish stands in the input. */
  lemma {:induction false} FirstIndex(ds: seq<Dish>, k: nat) returns (i: nat)
    requires k < |FirstOccurrences(ds)|
    ensures i < |ds| && ds[i] == FirstOccurrences(ds)[k] && FirstOfKey(ds, i)
    decreases |ds|
  {
    var n := |ds| - 1;
    var front := ds[..n];
    var f := FirstOccurrences(front);
    var r := FirstOccurrences(ds);
    assert r == f + (if DishKey(ds[n]) in KeysOf(front) then [] else [ds[n]]);
    if k < |f| {
      i := FirstIndex(front, k);
      assert ds[..i] == front[..i];
      assert r[k] == f[k];
    } else {
      i := n;
    }
  }


  /** The same main dish with its side dishes in another order is dropped
      as a duplicate. */
  lemma PermutedSidesAreDuplicates(d1: Dish, d2: Dish)
    requires d1.gericht == d2.gericht && multiset(d1.beilagen) == multiset(d2.beilagen)
    ensures FirstOccurrences([d1, d2]) == [d1]
  {
    SortedKeyIgnoresOrder(d1.beilagen, d2.beilagen);
    var ds := [d1, d2];
    assert ds[..1] == [d1] && ds[..1][..0] == [];
    assert DishKey(d1) == DishKey(d2) && d1 in [d1];
    assert DishKey(d2) in KeysOf([d1]);
    assert FirstOccurrences([d1]) == FirstOccurrences([]) + [d1];
    assert FirstOccurrences(ds) == FirstOccurrences([d1]) + [];
  }
}
