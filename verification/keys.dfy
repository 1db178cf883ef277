/** Coverage keys: what a plan expects (`_erwarte_rezept_keys`), what the
    generated recipes provide (`_vorhandene_rezepte_keys`), the recipe-name
    normalisation (`_name_to_hg`) and the difference (`_delta_missing`). */
module Keys {
  import opened Wrappers
  import opened Text
  import opened Records

  // ---------------------------------------------------------------------
  // Expected keys

  /** The key of one menu: `int(w.get('woche', 1))`, `str(t.get('tag', ''))`,
      `str(m.get('menuName', ''))` and the main dish, '' when absent. */
  function MenuKey(wnr: int, tag: string, m: Menu): ItemKey {
    ItemKey(wnr, tag, m.menuName.GetOr(""), LunchHg(m).GetOr(""))
  }

  /** One key per menu of the day, in menu order. The ensures only spell
      out the comprehension for the prover; what the keys mean is stated
      by ExpectedKeysMembers. */
  function DayKeys(wnr: int, t: Day): (r: seq<ItemKey>)
    ensures |r| == |MenuesOf(t)|
    ensures forall l :: 0 <= l < |r| ==> r[l] == MenuKey(wnr, t.tag.GetOr(""), MenuesOf(t)[l])
  {
    seq(|MenuesOf(t)|, l requires 0 <= l < |MenuesOf(t)| => MenuKey(wnr, t.tag.GetOr(""), MenuesOf(t)[l]))
  }

  function DaysKeys(wnr: int, ts: seq<Day>): seq<ItemKey> {
    if ts == [] then [] else DaysKeys(wnr, ts[..|ts| - 1]) + DayKeys(wnr, ts[|ts| - 1])
  }

  function WeekKeys(w: Week): seq<ItemKey> {
    DaysKeys(w.woche.GetOr(1), TageOf(w))
  }

  function WeeksKeys(ws: seq<Week>): seq<ItemKey> {
    if ws == [] then [] else WeeksKeys(ws[..|ws| - 1]) + WeekKeys(ws[|ws| - 1])
  }

  function ExpectedKeys(p: Plan): seq<ItemKey> {
    WeeksKeys(p.wochen)
  }

  /** `_erwarte_rezept_keys` */
  method ErwarteRezeptKeys(p: Plan) returns (expected: seq<ItemKey>)
    ensures expected == ExpectedKeys(p)
  {
    expected := [];
    var i := 0;
    while i < |p.wochen|
      invariant 0 <= i <= |p.wochen|
      invariant expected == WeeksKeys(p.wochen[..i])
    {
      var w := p.wochen[i];
      var done := expected;
      var wnr := w.woche.GetOr(1);
      var tage := TageOf(w);
      var j := 0;
      while j < |tage|
        invariant 0 <= j <= |tage|
        invariant expected == done + DaysKeys(wnr, tage[..j])
      {
        var t := tage[j];
        var keys := DayMenuKeys(wnr, t);
        assert tage[..j + 1][..j] == tage[..j];
        expected := expected + keys;
        j := j + 1;
      }
      assert tage[..j] == tage;
      assert p.wochen[..i + 1][..i] == p.wochen[..i];
      i := i + 1;
    }
    assert p.wochen[..i] == p.wochen;
  }

  /** The innermost loop of `_erwarte_rezept_keys`, over one day's menus. */
  method DayMenuKeys(wnr: int, t: Day) returns (keys: seq<ItemKey>)
    ensures keys == DayKeys(wnr, t)
  {
    var tag := t.tag.GetOr("");
    var ms := MenuesOf(t);
    keys := [];
    var l := 0;
    while l < |ms|
      invariant 0 <= l <= |ms|
      invariant keys == DayKeys(wnr, t)[..l]
    {
      keys := keys + [MenuKey(wnr, tag, ms[l])];
      l := l + 1;
    }
  }

  lemma {:induction false} DaysKeysMembers(wnr: int, ts: seq<Day>, k: ItemKey)
    ensures k in DaysKeys(wnr, ts) <==>
      exists j, l :: 0 <= j < |ts| && 0 <= l < |MenuesOf(ts[j])| && k == MenuKey(wnr, ts[j].tag.GetOr(""), MenuesOf(ts[j])[l])
    decreases |ts|
  {
    if ts != [] {
      var n := |ts| - 1;
      DaysKeysMembers(wnr, ts[..n], k);
      if k in DayKeys(wnr, ts[n]) {
        var l :| 0 <= l < |DayKeys(wnr, ts[n])| && DayKeys(wnr, ts[n])[l] == k;
        assert 0 <= l < |MenuesOf(ts[n])| && k == MenuKey(wnr, ts[n].tag.GetOr(""), MenuesOf(ts[n])[l]);
      }
      if exists j, l :: 0 <= j < |ts| && 0 <= l < |MenuesOf(ts[j])| && k == MenuKey(wnr, ts[j].tag.GetOr(""), MenuesOf(ts[j])[l]) {
        var j, l :| 0 <= j < |ts| && 0 <= l < |MenuesOf(ts[j])| && k == MenuKey(wnr, ts[j].tag.GetOr(""), MenuesOf(ts[j])[l]);
        if j == n {
          assert DayKeys(wnr, ts[n])[l] == k;
        } else {
          assert ts[..n][j] == ts[j];
        }
      }
    }
  }

  lemma {:induction false} WeeksKeysMembers(ws: seq<Week>, k: ItemKey)
    ensures k in WeeksKeys(ws) <==> exists i :: 0 <= i < |ws| && k in WeekKeys(ws[i])
    decreases |ws|
  {
    if ws != [] {
      var n := |ws| - 1;
      var front := ws[..n];
      WeeksKeysMembers(front, k);
      assert WeeksKeys(ws) == WeeksKeys(front) + WeekKeys(ws[n]);
      assert forall i :: 0 <= i < n ==> front[i] == ws[i];
    }
  }

  /** Every key the plan expects comes from one menu of one day of one week,
      with the week number defaulting to 1 and the other fields to '', and
      every such menu contributes its key. */
  lemma ExpectedKeysMembers(p: Plan, k: ItemKey)
    ensures k in ExpectedKeys(p) <==>
      exists i, j, l :: 0 <= i < |p.wochen| && 0 <= j < |TageOf(p.wochen[i])| &&
        0 <= l < |MenuesOf(TageOf(p.wochen[i])[j])| &&
        k == MenuKey(p.wochen[i].woche.GetOr(1), TageOf(p.wochen[i])[j].tag.GetOr(""), MenuesOf(TageOf(p.wochen[i])[j])[l])
  {
    WeeksKeysMembers(p.wochen, k);
    forall i | 0 <= i < |p.wochen| {
      DaysKeysMembers(p.wochen[i].woche.GetOr(1), TageOf(p.wochen[i]), k);
    }
  }

  // ---------------------------------------------------------------------
  // Produced keys

  /** `(int(r.get('woche', 0) or 0), str(r.get('tag','')), str(r.get('menu','')), str(r.get('name','')))` */
  function RecipeKey(r: Recipe): ItemKey {
    ItemKey(r.woche.GetOr(0), r.tag.GetOr(""), r.menu.GetOr(""), r.name.GetOr(""))
  }

  /** `_vorhandene_rezepte_keys`: `rezepte` is None when the result holds no
      `rezepte` key (or is empty or None); then there are no keys. */
  method VorhandeneRezepteKeys(rezepte: Option<seq<Recipe>>) returns (have: seq<ItemKey>)
    ensures rezepte.None? ==> have == []
    ensures rezepte.Some? ==> |have| == |rezepte.value|
    ensures rezepte.Some? ==> forall i :: 0 <= i < |have| ==> have[i] == RecipeKey(rezepte.value[i])
  {
    have := [];
    if rezepte.None? {
      return;
    }
    var rs := rezepte.value;
    for i := 0 to |rs|
      invariant |have| == i
      invariant forall k :: 0 <= k < i ==> have[k] == RecipeKey(rs[k])
    {
      have := have + [RecipeKey(rs[i])];
    }
  }

  // ---------------------------------------------------------------------
  // _name_to_hg: cut at the first `\s+mit\s+`, ` - ` or ` – `, then strip

  /** End of the run of whitespace starting at `i`. */
  function SpaceEnd(s: string, i: nat): (j: nat)
    requires i <= |s|
    ensures i <= j <= |s|
    ensures forall k :: i <= k < j ==> IsSpace(s[k])
    ensures j == |s| || !IsSpace(s[j])
    decreases |s| - i
  {
    if i < |s| && IsSpace(s[i]) then SpaceEnd(s, i + 1) else i
  }

  /** `\s+mit\s+` matches at `i`. The greedy `\s+` must stop at the end of
      the run, since `m` is no whitespace. */
  predicate MitAt(s: string, i: nat) {
    i < |s| && IsSpace(s[i]) &&
    var j := SpaceEnd(s, i);
    j + 4 <= |s| && s[j] == 'm' && s[j + 1] == 'i' && s[j + 2] == 't' && IsSpace(s[j + 3])
  }

  /** ` - ` or ` – ` (en dash) at `i`. */
  predicate DashAt(s: string, i: nat) {
    i + 3 <= |s| && s[i] == ' ' && (s[i + 1] == '-' || s[i + 1] == '–') && s[i + 2] == ' '
  }

  /** The separator pattern matches at `i`. */
  predicate SplitAt(s: string, i: nat) {
    MitAt(s, i) || DashAt(s, i)
  }

  /** Where re.split cuts: the leftmost match at or after `i`, or the end. */
  function FirstSplit(s: string, i: nat): (k: nat)
    requires i <= |s|
    ensures i <= k <= |s|
    ensures k < |s| ==> SplitAt(s, k)
    ensures forall m :: i <= m < k ==> !SplitAt(s, m)
    decreases |s| - i
  {
    if i == |s| || SplitAt(s, i) then i else FirstSplit(s, i + 1)
  }

  /** `_name_to_hg(name)`: the part before the first separator, stripped. */
  function NameToHg(name: string): (r: string)
    ensures r == [] || (!IsSpace(r[0]) && !IsSpace(r[|r| - 1]))
  {
    if name == [] then name else Strip(name[..FirstSplit(name, 0)])
  }

  /** The normalised name is a piece of the name. */
  lemma NameToHgInfix(name: string)
    ensures exists lo :: InfixAt(NameToHg(name), name, lo)
  {
    if name == [] {
      assert NameToHg(name) == name && InfixAt(name, name, 0);
    } else {
      var p := name[..FirstSplit(name, 0)];
      StripIsInfix(p);
      var lo :| InfixAt(Strip(p), p, lo);
      PrefixInfix(name, p, Strip(p), lo);
      assert NameToHg(name) == Strip(p);
    }
  }

  lemma PrefixInfix(s: string, p: string, r: string, lo: int)
    requires |p| <= |s| && p == s[..|p|] && InfixAt(r, p, lo)
    ensures InfixAt(r, s, lo)
  {
  }

  /** A name without separator is only stripped. */
  lemma NameToHgWithoutSeparator(name: string)
    requires forall i :: 0 <= i < |name| ==> !SplitAt(name, i)
    ensures NameToHg(name) == Strip(name)
  {
    if name != [] {
      assert name[..FirstSplit(name, 0)] == name;
    }
  }

  lemma {:induction false} SpaceEndInfix(s: string, r: string, lo: nat, i: nat)
    requires InfixAt(r, s, lo) && i <= |r|
    requires SpaceEnd(r, i) < |r|
    ensures SpaceEnd(s, lo + i) == lo + SpaceEnd(r, i)
    decreases |r| - i
  {
    assert r[i] == s[lo + i];
    if IsSpace(r[i]) {
      SpaceEndInfix(s, r, lo, i + 1);
    }
  }

  /** A separator inside a piece of `s` is a separator of `s`. */
  lemma SplitInfix(s: string, r: string, lo: nat, i: nat)
    requires InfixAt(r, s, lo) && SplitAt(r, i)
    ensures SplitAt(s, lo + i)
  {
    if MitAt(r, i) {
      var j := SpaceEnd(r, i);
      SpaceEndInfix(s, r, lo, i);
      assert s[lo + i] == r[i];
      assert s[lo + j] == r[j] && s[lo + j + 1] == r[j + 1] && s[lo + j + 2] == r[j + 2] && s[lo + j + 3] == r[j + 3];
    } else {
      assert s[lo + i] == r[i] && s[lo + i + 1] == r[i + 1] && s[lo + i + 2] == r[i + 2];
    }
  }

  /** The normalised name holds no separator at all. */
  lemma NameToHgNoSplit(name: string)
    ensures forall i :: 0 <= i < |NameToHg(name)| ==> !SplitAt(NameToHg(name), i)
  {
    var r := NameToHg(name);
    if name != [] {
      var k := FirstSplit(name, 0);
      var p := name[..k];
      assert r == Strip(p);
      StripIsInfix(p);
      var lo :| InfixAt(r, p, lo);
      PrefixInfix(name, p, r, lo);
      NoSplitPiece(name, r, lo, k);
    }
  }

  /** A piece of `s` that ends before the first separator holds none. */
  lemma NoSplitPiece(s: string, r: string, lo: nat, k: nat)
    requires InfixAt(r, s, lo) && lo + |r| <= k <= |s|
    requires forall m :: 0 <= m < k ==> !SplitAt(s, m)
    ensures forall i :: 0 <= i < |r| ==> !SplitAt(r, i)
  {
    forall i | 0 <= i < |r| ensures !SplitAt(r, i) {
      if SplitAt(r, i) {
        SplitInfix(s, r, lo, i);
      }
    }
  }

  lemma StripTrimmed(s: string)
    requires s == [] || (!IsSpace(s[0]) && !IsSpace(s[|s| - 1]))
    ensures Strip(s) == s
  {
    assert LStrip(s) == s;
  }

  /** Normalising twice is normalising once. */
  lemma NameToHgIdempotent(name: string)
    ensures NameToHg(NameToHg(name)) == NameToHg(name)
  {
    var r := NameToHg(name);
    NameToHgNoSplit(name);
    NameToHgWithoutSeparator(r);
    StripTrimmed(r);
  }

  // ---------------------------------------------------------------------
  // _delta_missing

  /** The recipe key with its name normalised, as entered in `have_index`. */
  function Normalised(k: ItemKey): ItemKey {
    ItemKey(k.woche, k.tag, k.menu, NameToHg(k.hg))
  }

  /** `have_index`: the normalised keys of the recipes. */
  function HaveIndex(rezepte: Option<seq<Recipe>>): set<ItemKey> {
    if rezepte.None? then {} else set r | r in rezepte.value :: Normalised(RecipeKey(r))
  }

  /** What an expected key is looked up as. As written, the raw key; the
      corrected lookup normalises its main dish like the recipe names. */
  function Probe(k: ItemKey, asWritten: bool): ItemKey {
    if asWritten then k else Normalised(k)
  }

  /** The expected keys not found, in order and with repetitions. */
  function MissingFrom(expected: seq<ItemKey>, have: set<ItemKey>, asWritten: bool): seq<ItemKey> {
    if expected == [] then []
    else
      var n := |expected| - 1;
      MissingFrom(expected[..n], have, asWritten)
        + (if Probe(expected[n], asWritten) in have then [] else [expected[n]])
  }

  /** `_delta_missing(expected, rezepte)`; `asWritten` false gives the
      corrected comparison. */
  method DeltaMissing(expected: seq<ItemKey>, rezepte: Option<seq<Recipe>>, asWritten: bool)
    returns (missing: seq<ItemKey>)
    ensures missing == MissingFrom(expected, HaveIndex(rezepte), asWritten)
  {
    var have := VorhandeneRezepteKeys(rezepte);
    var index: set<ItemKey> := {};
    for i := 0 to |have|
      invariant index == set k | k in have[..i] :: Normalised(k)
    {
      assert have[..i + 1] == have[..i] + [have[i]];
      index := index + {Normalised(have[i])};
    }
    assert have[..|have|] == have;
    assert index == HaveIndex(rezepte) by {
      if rezepte.Some? {
        forall x | x in HaveIndex(rezepte) ensures x in index {
          var r :| r in rezepte.value && x == Normalised(RecipeKey(r));
          var i :| 0 <= i < |rezepte.value| && rezepte.value[i] == r;
          assert have[i] in have;
        }
        forall x | x in index ensures x in HaveIndex(rezepte) {
          var k :| k in have && x == Normalised(k);
          var i :| 0 <= i < |have| && have[i] == k;
          assert rezepte.value[i] in rezepte.value;
        }
      }
    }
    missing := [];
    for i := 0 to |expected|
      invariant missing == MissingFrom(expected[..i], index, asWritten)
    {
      assert expected[..i + 1][..i] == expected[..i];
      if Probe(expected[i], asWritten) !in index {
        missing := missing + [expected[i]];
      }
    }
    assert expected[..|expected|] == expected;
  }

  /** The result keeps exactly the expected keys that are not found, in
      their order, each as often as it is expected. */
  lemma {:induction false} MissingFromSpec(expected: seq<ItemKey>, have: set<ItemKey>, asWritten: bool)
    ensures IsSubseq(MissingFrom(expected, have, asWritten), expected)
    ensures forall x :: multiset(MissingFrom(expected, have, asWritten))[x] ==
                        if Probe(x, asWritten) in have then 0 else multiset(expected)[x]
    decreases |expected|
  {
    if expected != [] {
      MissingFromSpec(expected[..|expected| - 1], have, asWritten);
      MissingStep(expected, have, asWritten);
    }
  }

  /** The last expected key keeps MissingFromSpec, given the others do. */
  lemma MissingStep(expected: seq<ItemKey>, have: set<ItemKey>, asWritten: bool)
    requires expected != []
    requires var front := expected[..|expected| - 1];
      IsSubseq(MissingFrom(front, have, asWritten), front)
      && forall x :: multiset(MissingFrom(front, have, asWritten))[x] ==
                     if Probe(x, asWritten) in have then 0 else multiset(front)[x]
    ensures IsSubseq(MissingFrom(expected, have, asWritten), expected)
    ensures forall x :: multiset(MissingFrom(expected, have, asWritten))[x] ==
                        if Probe(x, asWritten) in have then 0 else multiset(expected)[x]
  {
    var n := |expected| - 1;
    var front, last := expected[..n], expected[n];
    var m := MissingFrom(front, have, asWritten);
    var keep := Probe(last, asWritten) !in have;
    SplitLast(expected);
    assert MissingFrom(expected, have, asWritten) == m + (if keep then [last] else []);
    SnocSubseq(m, front, last, keep);
  }


  /** A key is reported missing exactly when it is expected and no recipe
      provides it. */
  lemma DeltaMissingMembers(expected: seq<ItemKey>, rezepte: Option<seq<Recipe>>, asWritten: bool, x: ItemKey)
    ensures x in MissingFrom(expected, HaveIndex(rezepte), asWritten) <==>
      x in expected && (rezepte.None? || forall r :: r in rezepte.value ==> Normalised(RecipeKey(r)) != Probe(x, asWritten))
  {
    MissingFromSpec(expected, HaveIndex(rezepte), asWritten);
    assert x in MissingFrom(expected, HaveIndex(rezepte), asWritten) <==> multiset(MissingFrom(expected, HaveIndex(rezepte), asWritten))[x] > 0;
  }

  /** Without a `rezepte` key everything expected is missing. */
  lemma {:induction false} NoRezepteAllMissing(expected: seq<ItemKey>, asWritten: bool)
    ensures MissingFrom(expected, HaveIndex(None), asWritten) == expected
    decreases |expected|
  {
    if expected != [] {
      var n := |expected| - 1;
      NoRezepteAllMissing(expected[..n], asWritten);
      assert expected == expected[..n] + [expected[n]];
    }
  }

  /** As written: a planned main dish that itself contains a separator
      (`Nudeln mit Tomatensoße`) is never matched, whatever recipes exist,
      because the recipe side is normalised and the plan side is not. */
  lemma SplitDishNeverCovered(expected: seq<ItemKey>, rezepte: Option<seq<Recipe>>, x: ItemKey, i: nat)
    requires x in expected && i < |x.hg| && SplitAt(x.hg, i)
    ensures x in MissingFrom(expected, HaveIndex(rezepte), true)
  {
    DeltaMissingMembers(expected, rezepte, true, x);
    if rezepte.Some? {
      forall r | r in rezepte.value ensures Normalised(RecipeKey(r)) != x {
        NameToHgNoSplit(RecipeKey(r).hg);
      }
    }
  }

  lemma MitAtExample()
    ensures MitAt("Nudeln mit Tomatensosse", 6)
  {
    var s := "Nudeln mit Tomatensosse";
    assert SpaceEnd(s, 7) == 7;
    assert SpaceEnd(s, 6) == 7;
  }

  /** As written: the recipe named exactly like the planned dish does not
      count for it. */
  lemma NamedRecipeMissedAsWritten()
    ensures var x := ItemKey(1, "Montag", "Vollkost", "Nudeln mit Tomatensosse");
      MissingFrom([x], HaveIndex(Some([Recipe(Some(1), Some("Montag"), Some("Vollkost"), Some("Nudeln mit Tomatensosse"))])), true) == [x]
  {
    var x := ItemKey(1, "Montag", "Vollkost", "Nudeln mit Tomatensosse");
    var rs := Some([Recipe(Some(1), Some("Montag"), Some("Vollkost"), Some("Nudeln mit Tomatensosse"))]);
    MitAtExample();
    SplitDishNeverCovered([x], rs, x, 6);
    assert [x][..0] == [];
  }

  /** Corrected: with both main dishes normalised, a recipe whose key
      equals the expected key covers it. */
  lemma NamedRecipeCovers(expected: seq<ItemKey>, rs: seq<Recipe>, x: ItemKey, r: Recipe)
    requires r in rs && RecipeKey(r) == x
    ensures x !in MissingFrom(expected, HaveIndex(Some(rs)), false)
  {
    DeltaMissingMembers(expected, Some(rs), false, x);
  }
}
