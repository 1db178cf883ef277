/** The recipe part of `generiere_speiseplan_gestuft`: a week's days are cut
    into groups of two; per group the recipes are generated, and while some
    expected recipe is missing (at most twice) a narrowed follow-up plan is
    generated for. The generator is a parameter: `gen(plan, attempt)` is the
    `rezepte` list of the reply, or None when the call failed or the reply
    holds no `rezepte`. */
module Staged {
  import opened Wrappers
  import opened Text
  import opened Records
  import opened Keys
  import opened MiniPlan

  type Generator = (Plan, nat) -> Option<seq<Recipe>>

  /** `tage_pro_gruppe` */
  const TageProGruppe: nat := 2

  /** `anzahl_gruppen = (len(w_tage) + tage_pro_gruppe - 1) // tage_pro_gruppe` */
  function GroupCount(n: nat): nat {
    (n + TageProGruppe - 1) / TageProGruppe
  }

  /** `start = g * tage_pro_gruppe` */
  function GroupStart(g: nat): nat {
    g * TageProGruppe
  }

  /** `end = min((g+1) * tage_pro_gruppe, len(w_tage))` */
  function GroupEnd(g: nat, n: nat): nat {
    Min((g + 1) * TageProGruppe, n)
  }

  /** The groups are non-empty, at most two days long, adjacent, start at
      day 0 and end at the last day: every day is in exactly one group. */
  lemma GroupsPartition(n: nat)
    ensures forall g: nat :: g < GroupCount(n) ==> GroupStart(g) < GroupEnd(g, n) <= n && GroupEnd(g, n) - GroupStart(g) <= 2
    ensures forall g: nat :: g + 1 < GroupCount(n) ==> GroupEnd(g, n) == GroupStart(g + 1)
    ensures n > 0 ==> GroupStart(0) == 0 && GroupEnd(GroupCount(n) - 1, n) == n
    ensures forall d: nat :: d < n ==> DayGroup(d) < GroupCount(n) && GroupStart(DayGroup(d)) <= d < GroupEnd(DayGroup(d), n)
    ensures forall d: nat, g: nat :: g < GroupCount(n) && GroupStart(g) <= d < GroupEnd(g, n) ==> g == DayGroup(d)
  {
  }

  /** The group a day falls in. */
  function DayGroup(d: nat): nat {
    d / TageProGruppe
  }

  /** The days of group `g`: `_tage_slicen(w_tage, start, end)`. */
  function GroupTage(tage: seq<Day>, g: nat): seq<Day> {
    PySlice(tage, GroupStart(g), GroupEnd(g, |tage|))
  }

  /** `gruppe_plan` */
  function GroupPlan(tage: seq<Day>, wocheNr: int, menulinien: int, menuNamen: seq<string>, g: nat): Plan {
    Plan([Week(Some(wocheNr), Some(GroupTage(tage, g)))], Some(menulinien), Some(menuNamen))
  }

  /** The keys expected for a one-week plan are the keys of its days. */
  lemma OneWeekKeys(wocheNr: int, ts: seq<Day>, menulinien: int, menuNamen: seq<string>)
    ensures ExpectedKeys(Plan([Week(Some(wocheNr), Some(ts))], Some(menulinien), Some(menuNamen))) == DaysKeys(wocheNr, ts)
  {
    var ws := [Week(Some(wocheNr), Some(ts))];
    assert ws[..0] == [];
    assert WeeksKeys(ws) == WeeksKeys([]) + WeekKeys(ws[0]);
    assert WeekKeys(ws[0]) == DaysKeys(wocheNr, ts);
  }

  lemma {:induction false} DaysKeysAppend(wnr: int, a: seq<Day>, b: seq<Day>)
    ensures DaysKeys(wnr, a + b) == DaysKeys(wnr, a) + DaysKeys(wnr, b)
    decreases |b|
  {
    if b != [] {
      var n := |b| - 1;
      DaysKeysAppend(wnr, a, b[..n]);
      assert (a + b)[..|a + b| - 1] == a + b[..n];
      assert (a + b)[|a + b| - 1] == b[n];
      assert DaysKeys(wnr, a + b) == DaysKeys(wnr, a + b[..n]) + DayKeys(wnr, b[n]);
      assert DaysKeys(wnr, b) == DaysKeys(wnr, b[..n]) + DayKeys(wnr, b[n]);
    } else {
      assert a + b == a;
    }
  }

  /** The keys of the first `k` groups, in group order. */
  function GroupsKeys(tage: seq<Day>, wocheNr: int, menulinien: int, menuNamen: seq<string>, k: nat): seq<ItemKey> {
    if k == 0 then []
    else GroupsKeys(tage, wocheNr, menulinien, menuNamen, k - 1) + ExpectedKeys(GroupPlan(tage, wocheNr, menulinien, menuNamen, k - 1))
  }

  /** The days of the first `k` groups, in group order. */
  function GroupsDays(tage: seq<Day>, k: nat): seq<Day> {
    if k == 0 then [] else GroupsDays(tage, k - 1) + GroupTage(tage, k - 1)
  }

  /** The first `k` groups hold the first `min(2k, n)` days. */
  lemma {:induction false} GroupsDaysPrefix(tage: seq<Day>, k: nat)
    requires k <= GroupCount(|tage|)
    ensures GroupsDays(tage, k) == tage[..Min(2 * k, |tage|)]
    decreases k
  {
    if k > 0 {
      var g: nat := k - 1;
      var lo, hi := Min(2 * g, |tage|), Min(2 * k, |tage|);
      assert lo == GroupStart(g) && hi == GroupEnd(g, |tage|) && lo < hi;
      GroupsDaysPrefix(tage, g);
      GroupsStep(tage, 1, 1, [], g);
      assert GroupTage(tage, g) == tage[lo..hi];
      PrefixSplit(tage, lo, hi);
    }
  }

  /** The keys of the first `k` groups are the keys of their days. */
  lemma GroupsStep(tage: seq<Day>, wocheNr: int, menulinien: int, menuNamen: seq<string>, g: nat)
    ensures GroupsKeys(tage, wocheNr, menulinien, menuNamen, g + 1)
            == GroupsKeys(tage, wocheNr, menulinien, menuNamen, g) + ExpectedKeys(GroupPlan(tage, wocheNr, menulinien, menuNamen, g))
    ensures GroupsDays(tage, g + 1) == GroupsDays(tage, g) + GroupTage(tage, g)
  {
  }

  lemma {:induction false} GroupsKeysDays(tage: seq<Day>, wocheNr: int, menulinien: int, menuNamen: seq<string>, k: nat)
    ensures GroupsKeys(tage, wocheNr, menulinien, menuNamen, k) == DaysKeys(wocheNr, GroupsDays(tage, k))
    decreases k
  {
    if k > 0 {
      var g: nat := k - 1;
      var piece := GroupTage(tage, g);
      var before := GroupsKeys(tage, wocheNr, menulinien, menuNamen, g);
      var here := ExpectedKeys(GroupPlan(tage, wocheNr, menulinien, menuNamen, g));
      var days := GroupsDays(tage, g);
      assert before == DaysKeys(wocheNr, days) by {
        GroupsKeysDays(tage, wocheNr, menulinien, menuNamen, g);
      }
      assert here == DaysKeys(wocheNr, piece) by {
        OneWeekKeys(wocheNr, piece, menulinien, menuNamen);
      }
      GroupsStep(tage, wocheNr, menulinien, menuNamen, g);
      assert DaysKeys(wocheNr, GroupsDays(tage, k)) == DaysKeys(wocheNr, days) + DaysKeys(wocheNr, piece) by {
        DaysKeysAppend(wocheNr, days, piece);
      }
      EqConcat(GroupsKeys(tage, wocheNr, menulinien, menuNamen, k), before, here,
               DaysKeys(wocheNr, days), DaysKeys(wocheNr, piece), DaysKeys(wocheNr, GroupsDays(tage, k)));
    }
  }

  /** Taken together, the groups expect exactly the week's keys, in order:
      no day is left out and none is asked for twice. */
  lemma GroupsCoverWeek(tage: seq<Day>, wocheNr: int, menulinien: int, menuNamen: seq<string>)
    ensures GroupsKeys(tage, wocheNr, menulinien, menuNamen, GroupCount(|tage|))
            == ExpectedKeys(Plan([Week(Some(wocheNr), Some(tage))], Some(menulinien), Some(menuNamen)))
  {
    GroupsKeysDays(tage, wocheNr, menulinien, menuNamen, GroupCount(|tage|));
    GroupsDaysPrefix(tage, GroupCount(|tage|));
    assert tage[..Min(2 * GroupCount(|tage|), |tage|)] == tage;
    OneWeekKeys(wocheNr, tage, menulinien, menuNamen);
  }

  // ---------------------------------------------------------------------
  // One group

  lemma PrefixTrans(a: seq<Recipe>, b: seq<Recipe>, c: seq<Recipe>)
    requires a <= b && b <= c
    ensures a <= c
  {
    assert c[..|b|][..|a|] == c[..|a|];
  }

  /** `rezepte_data_w["rezepte"].extend(res["rezepte"])` when there is one. */
  function Gained(res: Option<seq<Recipe>>): seq<Recipe> {
    res.GetOr([])
  }

  /** What is still missing with the recipes collected so far; `asWritten`
      selects the comparison of DeltaMissing. */
  function StillMissing(expected: seq<ItemKey>, acc: seq<Recipe>, asWritten: bool): seq<ItemKey> {
    MissingFrom(expected, HaveIndex(Some(acc)), asWritten)
  }

  /** The `while missing and tries < 2` loop from `tries` on: the final
      recipe list and try count. */
  function FollowUps(gruppe: Plan, expected: seq<ItemKey>, acc: seq<Recipe>, tries: nat, gen: Generator, asWritten: bool): (r: (seq<Recipe>, nat))
    decreases 2 - tries
  {
    var missing := StillMissing(expected, acc, asWritten);
    if missing == [] || tries >= 2 then (acc, tries)
    else FollowUps(gruppe, expected, acc + Gained(gen(MiniPlanOf(gruppe, missing), tries + 1)), tries + 1, gen, asWritten)
  }

  /** The whole group: the first generation, then the follow-ups. */
  function CoverGroupOf(gruppe: Plan, acc0: seq<Recipe>, gen: Generator, asWritten: bool): (seq<Recipe>, nat) {
    FollowUps(gruppe, ExpectedKeys(gruppe), acc0 + Gained(gen(gruppe, 0)), 0, gen, asWritten)
  }

  /** One group of the staged generation. */
  method CoverGroup(gruppe: Plan, acc0: seq<Recipe>, gen: Generator, asWritten: bool)
    returns (acc: seq<Recipe>, missing: seq<ItemKey>, tries: nat)
    ensures (acc, tries) == CoverGroupOf(gruppe, acc0, gen, asWritten)
    ensures missing == StillMissing(ExpectedKeys(gruppe), acc, asWritten)
  {
    var expected := ErwarteRezeptKeys(gruppe);
    acc := acc0 + Gained(gen(gruppe, 0));
    missing := DeltaMissing(expected, Some(acc), asWritten);
    tries := 0;
    while missing != [] && tries < 2
      invariant tries <= 2
      invariant missing == StillMissing(expected, acc, asWritten)
      invariant FollowUps(gruppe, expected, acc, tries, gen, asWritten) == CoverGroupOf(gruppe, acc0, gen, asWritten)
      decreases 2 - tries
    {
      var subPlan := MiniPlanFromKeys(gruppe, missing);
      acc := acc + Gained(gen(subPlan, tries + 1));
      missing := DeltaMissing(expected, Some(acc), asWritten);
      tries := tries + 1;
    }
  }

  /** The loop only appends, runs at most twice, and stops with nothing
      missing or after the second follow-up. */
  lemma {:induction false} FollowUpsSpec(gruppe: Plan, expected: seq<ItemKey>, acc: seq<Recipe>, tries: nat, gen: Generator, asWritten: bool)
    requires tries <= 2
    ensures var r := FollowUps(gruppe, expected, acc, tries, gen, asWritten);
      tries <= r.1 <= 2 && acc <= r.0
      && (StillMissing(expected, r.0, asWritten) == [] || r.1 == 2)
      && (StillMissing(expected, acc, asWritten) == [] ==> r == (acc, tries))
    decreases 2 - tries
  {
    var missing := StillMissing(expected, acc, asWritten);
    if missing != [] && tries < 2 {
      var next := acc + Gained(gen(MiniPlanOf(gruppe, missing), tries + 1));
      FollowUpsSpec(gruppe, expected, next, tries + 1, gen, asWritten);
      var r := FollowUps(gruppe, expected, next, tries + 1, gen, asWritten);
      PrefixTrans(acc, next, r.0);
    }
  }

  /** For a group: the recipes collected before are kept in front, at most
      two follow-ups are made, and if the first answer covers the group no
      follow-up is made at all. */
  lemma CoverGroupSpec(gruppe: Plan, acc0: seq<Recipe>, gen: Generator, asWritten: bool)
    ensures var r := CoverGroupOf(gruppe, acc0, gen, asWritten);
      r.1 <= 2 && acc0 <= r.0
      && (StillMissing(ExpectedKeys(gruppe), r.0, asWritten) == [] || r.1 == 2)
      && (StillMissing(ExpectedKeys(gruppe), acc0 + Gained(gen(gruppe, 0)), asWritten) == [] ==> r.1 == 0)
  {
    var first := acc0 + Gained(gen(gruppe, 0));
    FollowUpsSpec(gruppe, ExpectedKeys(gruppe), first, 0, gen, asWritten);
    PrefixTrans(acc0, first, CoverGroupOf(gruppe, acc0, gen, asWritten).0);
  }

  /** As written, a group that expects a main dish containing a separator
      (" mit ", " - ", " – ") can never be covered, so both follow-ups are
      always made, whatever the generator answers. */
  lemma SplitDishForcesFollowUps(gruppe: Plan, acc0: seq<Recipe>, gen: Generator, x: ItemKey, i: nat)
    requires x in ExpectedKeys(gruppe) && i < |x.hg| && SplitAt(x.hg, i)
    ensures CoverGroupOf(gruppe, acc0, gen, true).1 == 2
  {
    var r := CoverGroupOf(gruppe, acc0, gen, true);
    CoverGroupSpec(gruppe, acc0, gen, true);
    SplitDishNeverCovered(ExpectedKeys(gruppe), Some(r.0), x, i);
  }

  /** The prefix part of CoverGroupSpec on its own. */
  lemma CoverGroupExtends(gruppe: Plan, acc0: seq<Recipe>, gen: Generator, asWritten: bool)
    ensures acc0 <= CoverGroupOf(gruppe, acc0, gen, asWritten).0
  {
    CoverGroupSpec(gruppe, acc0, gen, asWritten);
  }

  // ---------------------------------------------------------------------
  // One week

  /** The plans of a week's groups, in order. The ensures only spell out
      the comprehension for the prover; GroupsCoverWeek states what the
      groups mean. */
  function GroupPlans(tage: seq<Day>, wocheNr: int, menulinien: int, menuNamen: seq<string>): (r: seq<Plan>)
    ensures |r| == GroupCount(|tage|)
    ensures forall g: nat :: g < |r| ==> r[g] == GroupPlan(tage, wocheNr, menulinien, menuNamen, g)
  {
    seq(GroupCount(|tage|), (g: nat) => GroupPlan(tage, wocheNr, menulinien, menuNamen, g))
  }

  /** The recipes after each group of `gruppen`, in order, ran on `acc`. */
  function GroupsFrom(gruppen: seq<Plan>, acc: seq<Recipe>, gen: Generator, asWritten: bool): seq<Recipe>
  {
    if gruppen == [] then acc
    else GroupsFrom(gruppen[1..], CoverGroupOf(gruppen[0], acc, gen, asWritten).0, gen, asWritten)
  }

  /** The group loop of one week, starting from `{"rezepte": []}`. */
  method CoverWeek(tage: seq<Day>, wocheNr: int, menulinien: int, menuNamen: seq<string>, gen: Generator, asWritten: bool)
    returns (rezepte: seq<Recipe>)
    ensures rezepte == GroupsFrom(GroupPlans(tage, wocheNr, menulinien, menuNamen), [], gen, asWritten)
  {
    rezepte := [];
    var anzahl := (|tage| + TageProGruppe - 1) / TageProGruppe;
    ghost var gruppen := GroupPlans(tage, wocheNr, menulinien, menuNamen);
    for g := 0 to anzahl
      invariant GroupsFrom(gruppen[g..], rezepte, gen, asWritten) == GroupsFrom(gruppen, [], gen, asWritten)
    {
      var start, end := g * TageProGruppe, Min((g + 1) * TageProGruppe, |tage|);
      var gruppe := Plan([Week(Some(wocheNr), Some(PySlice(tage, start, end)))], Some(menulinien), Some(menuNamen));
      assert gruppe == gruppen[g];
      assert gruppen[g..][1..] == gruppen[g + 1..];
      var missing, tries;
      rezepte, missing, tries := CoverGroup(gruppe, rezepte, gen, asWritten);
    }
  }

  /** Each group only appends to the week's recipes. */
  lemma {:induction false} GroupsFromExtends(gruppen: seq<Plan>, acc: seq<Recipe>, gen: Generator, asWritten: bool)
    ensures acc <= GroupsFrom(gruppen, acc, gen, asWritten)
    decreases |gruppen|
  {
    if gruppen != [] {
      var next := CoverGroupOf(gruppen[0], acc, gen, asWritten).0;
      CoverGroupExtends(gruppen[0], acc, gen, asWritten);
      GroupsFromExtends(gruppen[1..], next, gen, asWritten);
      PrefixTrans(acc, next, GroupsFrom(gruppen, acc, gen, asWritten));
    }
  }
}
