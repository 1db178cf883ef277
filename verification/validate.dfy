/** `_validate_day_struct`, `_validate_week_struct`, the menu-count
    normalisation of the day-by-day generator and the staged-mode switch.
    Error messages are modelled as a datatype, one constructor per message. */
module Validate {
  import opened Wrappers
  import opened Json
  import opened Text

  /** `TAGE` */
  const Tage: seq<string> := ["Montag", "Dienstag", "Mittwoch", "Donnerstag", "Freitag", "Samstag", "Sonntag"]

  /** The keys every menu must hold, in the order they are checked. */
  const MenuFields: seq<string> := ["menuName", "fruehstueck", "mittagessen", "abendessen"]

  /** The keys every `mittagessen` must hold. */
  const LunchFields: seq<string> := ["hauptgericht", "beilagen"]

  datatype Problem =
    | DayNotObject                          // Tag-Struktur ist kein Objekt.
    | BadTag                                // Feld 'tag' fehlt/ungültig.
    | NoMenuList                            // Feld 'menues' fehlt/ist keine Liste.
    | WrongMenuCount(n: int)                // Anzahl 'menues' != n.
    | MenuNotObject(idx: nat)               // Menü idx: ist kein Objekt.
    | MenuKeyMissing(idx: nat, key: string)  // Menü idx: 'key' fehlt.
    | LunchKeyMissing(idx: nat, key: string) // Menü idx Mittagessen: 'key' fehlt.
    | TooFewSides(idx: nat)                 // Menü idx Mittagessen: zu wenige Beilagen (<2).
    | NotSevenDays                          // Woche hat nicht exakt 7 'tage'.

  /** The exception a validator raises: a `mittagessen` that is no dict
      fails at `key not in mi` or at `mi.get(...)`. */
  datatype Fault = LunchNotObject(idx: nat)

  type Checked = Result<seq<Problem>, Fault>

  /** `day.get("tag") in TAGE` */
  predicate TagValid(day: Value)
    requires day.Obj?
  {
    Get(day, "tag").Str? && Get(day, "tag").s in Tage
  }

  /** The problems of the `idx`-th menu (counted from 1). */
  function MenuProblems(idx: nat, m: Value): Checked {
    if !m.Obj? then Ok([MenuNotObject(idx)])
    else
      var missing := MissingKeys(m, MenuFields, false, idx);
      if !Has(m, "mittagessen") then Ok(missing)
      else
        var mi := Get(m, "mittagessen");
        if !mi.Obj? then Err(LunchNotObject(idx))
        else
          var few := if Get(mi, "beilagen").Arr? && |Get(mi, "beilagen").items| < 2 then [TooFewSides(idx)] else [];
          Ok(missing + MissingKeys(mi, LunchFields, true, idx) + few)
  }

  /** The message for an absent key of a menu, or of its `mittagessen`. */
  function KeyMissing(lunch: bool, idx: nat, key: string): Problem {
    if lunch then LunchKeyMissing(idx, key) else MenuKeyMissing(idx, key)
  }

  /** One problem per key of `keys` that `v` lacks, in the order of `keys`. */
  function MissingKeys(v: Value, keys: seq<string>, lunch: bool, idx: nat): seq<Problem>
    requires v.Obj?
  {
    if keys == [] then []
    else
      var n := |keys| - 1;
      MissingKeys(v, keys[..n], lunch, idx) + (if Has(v, keys[n]) then [] else [KeyMissing(lunch, idx, keys[n])])
  }

  /** The menus' problems, in menu order; the first fault ends the check. */
  function MenusProblems(ms: seq<Value>): Checked {
    if ms == [] then Ok([])
    else
      var n := |ms| - 1;
      var before := MenusProblems(ms[..n]);
      if before.Err? then before
      else
        var here := MenuProblems(n + 1, ms[n]);
        if here.Err? then here else Ok(before.value + here.value)
  }

  /** What `_validate_day_struct(day, menulinien)` returns or raises. */
  function DayProblems(day: Value, menulinien: int): Checked {
    if !day.Obj? then Ok([DayNotObject])
    else
      var tagErrs := if TagValid(day) then [] else [BadTag];
      if !Has(day, "menues") || !Get(day, "menues").Arr? then Ok(tagErrs + [NoMenuList])
      else
        var ms := Get(day, "menues").items;
        var countErrs := if |ms| != menulinien then [WrongMenuCount(menulinien)] else [];
        var rest := MenusProblems(ms);
        if rest.Err? then rest else Ok(tagErrs + countErrs + rest.value)
  }

  /** The `for key in (...)` loops: append a problem per absent key. */
  method ReportMissing(v: Value, keys: seq<string>, lunch: bool, idx: nat) returns (errs: seq<Problem>)
    requires v.Obj?
    ensures errs == MissingKeys(v, keys, lunch, idx)
  {
    errs := [];
    for f := 0 to |keys|
      invariant errs == MissingKeys(v, keys[..f], lunch, idx)
    {
      assert keys[..f + 1][..f] == keys[..f];
      if !Has(v, keys[f]) {
        errs := errs + [KeyMissing(lunch, idx, keys[f])];
      }
    }
    assert keys[..|keys|] == keys;
  }

  /** The body of the `for idx, m in enumerate(day["menues"], 1)` loop. */
  method CheckMenu(idx: nat, m: Value) returns (r: Checked)
    ensures r == MenuProblems(idx, m)
  {
    if !m.Obj? {
      return Ok([MenuNotObject(idx)]);
    }
    var errs := ReportMissing(m, MenuFields, false, idx);
    if Has(m, "mittagessen") {
      var mi := Get(m, "mittagessen");
      if !mi.Obj? {
        return Err(LunchNotObject(idx));
      }
      var lunchErrs := ReportMissing(mi, LunchFields, true, idx);
      var few := [];
      var sides := Get(mi, "beilagen");
      if sides.Arr? && |sides.items| < 2 {
        few := [TooFewSides(idx)];
      }
      errs := errs + lunchErrs + few;
    }
    return Ok(errs);
  }

  /** `_validate_day_struct(day, menulinien)` */
  method ValidateDayStruct(day: Value, menulinien: int) returns (r: Checked)
    ensures r == DayProblems(day, menulinien)
  {
    if !day.Obj? {
      return Ok([DayNotObject]);
    }
    var errs: seq<Problem> := [];
    if !TagValid(day) {
      errs := errs + [BadTag];
    }
    if !Has(day, "menues") || !Get(day, "menues").Arr? {
      errs := errs + [NoMenuList];
      assert errs == (if TagValid(day) then [] else [BadTag]) + [NoMenuList];
      return Ok(errs);
    }
    var ms := Get(day, "menues").items;
    if |ms| != menulinien {
      errs := errs + [WrongMenuCount(menulinien)];
    }
    assert errs == (if TagValid(day) then [] else [BadTag]) + (if |ms| != menulinien then [WrongMenuCount(menulinien)] else []);
    var rest := CheckMenus(ms);
    if rest.Err? {
      return rest;
    }
    return Ok(errs + rest.value);
  }

  /** The loop over the menus of a day. */
  method CheckMenus(ms: seq<Value>) returns (r: Checked)
    ensures r == MenusProblems(ms)
  {
    var errs: seq<Problem> := [];
    for i := 0 to |ms|
      invariant MenusProblems(ms[..i]) == Ok(errs)
    {
      assert ms[..i + 1][..i] == ms[..i];
      var one := CheckMenu(i + 1, ms[i]);
      if one.Err? {
        MenusProblemsFault(ms, i);
        return one;
      }
      errs := errs + one.value;
    }
    assert ms[..|ms|] == ms;
    return Ok(errs);
  }

  /** A fault at menu `i` is the outcome of the whole day. */
  lemma {:induction false} MenusProblemsFault(ms: seq<Value>, i: nat)
    requires i < |ms| && MenusProblems(ms[..i]).Ok? && MenuProblems(i + 1, ms[i]).Err?
    ensures MenusProblems(ms) == MenuProblems(i + 1, ms[i])
    decreases |ms| - i
  {
    if i + 1 < |ms| {
      assert ms[..i + 1][..i] == ms[..i];
      assert MenusProblems(ms[..i + 1]) == MenuProblems(i + 1, ms[i]);
      MenusFaultStays(ms, i + 1);
    } else {
      assert ms[..i + 1] == ms;
    }
  }

  /** Once a fault is reached, later menus do not change it. */
  lemma {:induction false} MenusFaultStays(ms: seq<Value>, i: nat)
    requires i <= |ms| && MenusProblems(ms[..i]).Err?
    ensures MenusProblems(ms) == MenusProblems(ms[..i])
    decreases |ms| - i
  {
    if i < |ms| {
      assert ms[..i + 1][..i] == ms[..i];
      MenusFaultStays(ms, i + 1);
    } else {
      assert ms[..i] == ms;
    }
  }

  // ---------------------------------------------------------------------
  // What the validators accept

  /** A menu as the day check wants it. */
  predicate GoodMenu(m: Value) {
    m.Obj? && (forall key :: key in MenuFields ==> Has(m, key))
    && Get(m, "mittagessen").Obj?
    && (forall key :: key in LunchFields ==> Has(Get(m, "mittagessen"), key))
    && !(Get(Get(m, "mittagessen"), "beilagen").Arr? && |Get(Get(m, "mittagessen"), "beilagen").items| < 2)
  }

  /** A day as the day check wants it: a dict with a weekday name, and a
      list of exactly `menulinien` good menus. */
  predicate GoodDay(day: Value, menulinien: int) {
    day.Obj? && TagValid(day) && Has(day, "menues") && Get(day, "menues").Arr?
    && |Get(day, "menues").items| == menulinien
    && forall i :: 0 <= i < |Get(day, "menues").items| ==> GoodMenu(Get(day, "menues").items[i])
  }

  lemma {:induction false} MissingKeysEmpty(v: Value, keys: seq<string>, lunch: bool, idx: nat)
    requires v.Obj?
    ensures MissingKeys(v, keys, lunch, idx) == [] <==> forall key :: key in keys ==> Has(v, key)
    decreases |keys|
  {
    if keys != [] {
      var n := |keys| - 1;
      MissingKeysEmpty(v, keys[..n], lunch, idx);
      assert forall key :: key in keys <==> key in keys[..n] || key == keys[n];
    }
  }

  lemma MenuProblemsEmpty(idx: nat, m: Value)
    ensures MenuProblems(idx, m) == Ok([]) <==> GoodMenu(m)
  {
    if m.Obj? {
      MissingKeysEmpty(m, MenuFields, false, idx);
      assert "mittagessen" in MenuFields;
      if Has(m, "mittagessen") && Get(m, "mittagessen").Obj? {
        MissingKeysEmpty(Get(m, "mittagessen"), LunchFields, true, idx);
      }
    }
  }

  /** A list of checks reports nothing exactly when each step reports nothing. */
  lemma CombineEmpty(before: Checked, here: Checked)
    ensures (if before.Err? then before else if here.Err? then here else Ok(before.value + here.value)) == Ok([])
            <==> before == Ok([]) && here == Ok([])
  {
    if before.Ok? && here.Ok? {
      assert |before.value + here.value| == |before.value| + |here.value|;
    }
  }

  lemma {:induction false} MenusProblemsEmpty(ms: seq<Value>)
    ensures MenusProblems(ms) == Ok([]) <==> forall i :: 0 <= i < |ms| ==> GoodMenu(ms[i])
    decreases |ms|
  {
    if ms != [] {
      var n := |ms| - 1;
      var front := ms[..n];
      assert MenusProblems(ms) == Ok([]) <==> MenusProblems(front) == Ok([]) && GoodMenu(ms[n]) by {
        MenuProblemsEmpty(n + 1, ms[n]);
        CombineEmpty(MenusProblems(front), MenuProblems(n + 1, ms[n]));
      }
      assert MenusProblems(front) == Ok([]) <==> forall i :: 0 <= i < n ==> GoodMenu(ms[i]) by {
        MenusProblemsEmpty(front);
        assert forall i :: 0 <= i < n ==> front[i] == ms[i];
      }
      AllSnoc(ms, GoodMenu);
    }
  }

  /** The day check reports nothing exactly for a good day. */
  lemma DayProblemsEmpty(day: Value, menulinien: int)
    ensures DayProblems(day, menulinien) == Ok([]) <==> GoodDay(day, menulinien)
  {
    if day.Obj? && Has(day, "menues") && Get(day, "menues").Arr? {
      MenusProblemsEmpty(Get(day, "menues").items);
    }
  }

  lemma {:induction false} MenusProblemsFaultIff(ms: seq<Value>)
    ensures MenusProblems(ms).Err? <==>
      exists i :: 0 <= i < |ms| && ms[i].Obj? && Has(ms[i], "mittagessen") && !Get(ms[i], "mittagessen").Obj?
    decreases |ms|
  {
    if ms != [] {
      var n := |ms| - 1;
      MenusProblemsFaultIff(ms[..n]);
      assert forall i :: 0 <= i < n ==> ms[..n][i] == ms[i];
    }
  }

  /** The day check raises exactly when some menu of a day with a menu list
      is a dict whose `mittagessen` is no dict. */
  lemma DayFaultIff(day: Value, menulinien: int)
    ensures DayProblems(day, menulinien).Err? <==>
      day.Obj? && Has(day, "menues") && Get(day, "menues").Arr? &&
      exists i :: 0 <= i < |Get(day, "menues").items| && Get(day, "menues").items[i].Obj? &&
        Has(Get(day, "menues").items[i], "mittagessen") && !Get(Get(day, "menues").items[i], "mittagessen").Obj?
  {
    if day.Obj? && Has(day, "menues") && Get(day, "menues").Arr? {
      MenusProblemsFaultIff(Get(day, "menues").items);
    }
  }

  // ---------------------------------------------------------------------
  // Week

  /** The days' outcomes, concatenated; the first fault ends the check. */
  function DaysProblems(ts: seq<Value>, menulinien: int): Checked {
    if ts == [] then Ok([])
    else
      var n := |ts| - 1;
      var before := DaysProblems(ts[..n], menulinien);
      if before.Err? then before
      else
        var here := DayProblems(ts[n], menulinien);
        if here.Err? then here else Ok(before.value + here.value)
  }

  /** What `_validate_week_struct(week, menulinien)` returns or raises. */
  function WeekProblems(week: Value, menulinien: int): Checked
    requires week.Obj?
  {
    if !Has(week, "tage") || !Get(week, "tage").Arr? || |Get(week, "tage").items| != 7 then Ok([NotSevenDays])
    else DaysProblems(Get(week, "tage").items, menulinien)
  }

  /** `_validate_week_struct(week, menulinien)` */
  method ValidateWeekStruct(week: Value, menulinien: int) returns (r: Checked)
    requires week.Obj?
    ensures r == WeekProblems(week, menulinien)
  {
    if !Has(week, "tage") || !Get(week, "tage").Arr? || |Get(week, "tage").items| != 7 {
      return Ok([NotSevenDays]);
    }
    var ts := Get(week, "tage").items;
    var errs: seq<Problem> := [];
    for i := 0 to |ts|
      invariant DaysProblems(ts[..i], menulinien) == Ok(errs)
    {
      assert ts[..i + 1][..i] == ts[..i];
      var one := ValidateDayStruct(ts[i], menulinien);
      if one.Err? {
        DaysFaultStays(ts, i + 1, menulinien);
        return one;
      }
      errs := errs + one.value;
    }
    assert ts[..|ts|] == ts;
    return Ok(errs);
  }

  lemma {:induction false} DaysFaultStays(ts: seq<Value>, i: nat, menulinien: int)
    requires i <= |ts| && DaysProblems(ts[..i], menulinien).Err?
    ensures DaysProblems(ts, menulinien) == DaysProblems(ts[..i], menulinien)
    decreases |ts| - i
  {
    if i < |ts| {
      assert ts[..i + 1][..i] == ts[..i];
      DaysFaultStays(ts, i + 1, menulinien);
    } else {
      assert ts[..i] == ts;
    }
  }

  lemma {:induction false} DaysProblemsEmpty(ts: seq<Value>, menulinien: int)
    ensures DaysProblems(ts, menulinien) == Ok([]) <==> forall i :: 0 <= i < |ts| ==> DayProblems(ts[i], menulinien) == Ok([])
    decreases |ts|
  {
    if ts != [] {
      var n := |ts| - 1;
      var front := ts[..n];
      assert DaysProblems(ts, menulinien) == Ok([]) <==>
          DaysProblems(front, menulinien) == Ok([]) && DayProblems(ts[n], menulinien) == Ok([]) by {
        CombineEmpty(DaysProblems(front, menulinien), DayProblems(ts[n], menulinien));
      }
      assert DaysProblems(front, menulinien) == Ok([]) <==>
          forall i :: 0 <= i < n ==> DayProblems(ts[i], menulinien) == Ok([]) by {
        DaysProblemsEmpty(front, menulinien);
        assert forall i :: 0 <= i < n ==> front[i] == ts[i];
      }
      AllSnoc(ts, d => DayProblems(d, menulinien) == Ok([]));
    }
  }

  /** The week check reports nothing exactly for a week of seven good days. */
  lemma WeekProblemsEmpty(week: Value, menulinien: int)
    requires week.Obj?
    ensures WeekProblems(week, menulinien) == Ok([]) <==>
      Has(week, "tage") && Get(week, "tage").Arr? && |Get(week, "tage").items| == 7 &&
      forall i :: 0 <= i < 7 ==> GoodDay(Get(week, "tage").items[i], menulinien)
  {
    if Has(week, "tage") && Get(week, "tage").Arr? && |Get(week, "tage").items| == 7 {
      var ts := Get(week, "tage").items;
      DaysProblemsEmpty(ts, menulinien);
      forall i | 0 <= i < 7 {
        DayProblemsEmpty(ts[i], menulinien);
      }
    }
  }

  // ---------------------------------------------------------------------
  // Menu count normalisation and mode switch

  /** Forcing a day's menu list to `menulinien` entries: a longer list is
      cut, a shorter non-empty one is padded with its last entry by
      appending in place, an empty one is left alone. */
  method ForceMenuCount(menues: seq<Value>, menulinien: nat) returns (r: seq<Value>)
    ensures |menues| >= menulinien ==> r == menues[..menulinien]
    ensures menues == [] ==> r == []
    ensures 0 < |menues| < menulinien ==>
      |r| == menulinien && r[..|menues|] == menues &&
      forall k :: |menues| <= k < menulinien ==> r[k] == menues[|menues| - 1]
  {
    r := menues;
    if |r| != menulinien {
      if |r| > menulinien {
        r := r[..menulinien];
      } else if |r| < menulinien && |r| > 0 {
        var last := r[|r| - 1];
        while |r| < menulinien
          invariant |menues| <= |r| <= menulinien
          invariant r[..|menues|] == menues
          invariant forall k :: |menues| <= k < |r| ==> r[k] == last
          decreases menulinien - |r|
        {
          r := r + [last];
        }
      }
    }
  }

  /** A day holding exactly `menulinien` menus, as ForceMenuCount leaves
      every non-empty list, is never reported with WrongMenuCount. */
  lemma ForcedCountAccepted(tag: Value, menulinien: nat, r: seq<Value>)
    requires |r| == menulinien
    ensures var day := Obj([("tag", tag), ("menues", Arr(r))]);
      DayProblems(day, menulinien).Ok? ==> WrongMenuCount(menulinien) !in DayProblems(day, menulinien).value
  {
    var day := Obj([("tag", tag), ("menues", Arr(r))]);
    assert day.fields[0].0 != "menues";
    assert Lookup(day.fields, "menues") == Lookup(day.fields[1..], "menues");
    assert Get(day, "menues") == Arr(r);
    var rest := MenusProblems(r);
    if rest.Ok? {
      MenusNeverMiscount(r);
    }
  }

  lemma {:induction false} MenusNeverMiscount(ms: seq<Value>)
    requires MenusProblems(ms).Ok?
    ensures forall n :: WrongMenuCount(n) !in MenusProblems(ms).value
    decreases |ms|
  {
    if ms != [] {
      var n := |ms| - 1;
      MenusNeverMiscount(ms[..n]);
      var here := MenuProblems(n + 1, ms[n]);
      if here.Ok? && ms[n].Obj? {
        MissingKeysKinds(ms[n], MenuFields, false, n + 1);
        if Has(ms[n], "mittagessen") {
          MissingKeysKinds(Get(ms[n], "mittagessen"), LunchFields, true, n + 1);
        }
      }
    }
  }

  lemma {:induction false} MissingKeysKinds(v: Value, keys: seq<string>, lunch: bool, idx: nat)
    requires v.Obj?
    ensures forall p :: p in MissingKeys(v, keys, lunch, idx) ==> !p.WrongMenuCount?
    decreases |keys|
  {
    if keys != [] {
      MissingKeysKinds(v, keys[..|keys| - 1], lunch, idx);
    }
  }

  /** `SCHWELLWERT_AUFTEILUNG` */
  const SchwellwertAufteilung := 8

  /** The staged-mode switch of `generiere_speiseplan_mit_rezepten`. */
  predicate Staged(wochen: int, menulinien: int) {
    wochen * menulinien * 7 > SchwellwertAufteilung || wochen > 1 || menulinien > 3
  }

  /** For a plan of at least one week and one menu line, the direct mode is
      taken only for exactly one week with one menu line. */
  lemma DirectOnlyForOneByOne(wochen: int, menulinien: int)
    requires wochen >= 1 && menulinien >= 1
    ensures !Staged(wochen, menulinien) <==> wochen == 1 && menulinien == 1
  {
    if wochen == 1 && menulinien >= 2 {
      assert wochen * menulinien * 7 >= 14;
    }
  }
}
