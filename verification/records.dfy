/** The plan and recipe records the coverage engine and the dish
    collection read. A field the source reads with `.get(...)` or `[...]`
    is an Option: None stands for an absent key. */
module Records {
  import opened Wrappers

  /** `mittagessen`: the main dish and its side dishes. */
  datatype Lunch = Lunch(hauptgericht: Option<string>, beilagen: Option<seq<string>>)

  /** One menu line of a day. */
  datatype Menu = Menu(menuName: Option<string>, mittagessen: Option<Lunch>)

  datatype Day = Day(tag: Option<string>, menues: Option<seq<Menu>>)

  datatype Week = Week(woche: Option<int>, tage: Option<seq<Day>>)

  /** The object under the top-level `speiseplan` key. */
  datatype Plan = Plan(wochen: seq<Week>, menuLinien: Option<int>, menuNamen: Option<seq<string>>)

  /** One generated recipe, as far as coverage reads it. */
  datatype Recipe = Recipe(woche: Option<int>, tag: Option<string>, menu: Option<string>, name: Option<string>)

  /** The `(woche, tag, menu, hauptgericht)` tuple coverage is measured in. */
  datatype ItemKey = ItemKey(woche: int, tag: string, menu: string, hg: string)

  /** `t.get('menues', [])` */
  function MenuesOf(t: Day): seq<Menu> {
    t.menues.GetOr([])
  }

  /** `w.get('tage', [])` */
  function TageOf(w: Week): seq<Day> {
    w.tage.GetOr([])
  }

  /** `m.get('mittagessen', {}).get('hauptgericht')` */
  function LunchHg(m: Menu): Option<string> {
    if m.mittagessen.Some? then m.mittagessen.value.hauptgericht else None
  }
}
